/** The logic of lib/grid-renderer.ts that does not draw: the text-colour test, label
    shortening, multi-brand detection, the option defaults and canvas geometry of
    `renderGridPattern`, and the materials list `generateMaterialText` serialises. */
module GridRenderer {
  import opened Util
  import opened Text
  import opened PaletteRegistry
  import opened Quantize

  // ---------------------------------------------------------------------------
  // Cell labels

  /** `isLightColor`: dark text is drawn on colours whose luma is above 140. The
      comparison is done exactly, on 1000 times the luma. */
  function IsLightColor(r: int, g: int, b: int): (light: bool)
    ensures light <==> 0.299 * (r as real) + 0.587 * (g as real) + 0.114 * (b as real) > 140.0
  {
    Luma1000(r, g, b) > 140000
  }

  predicate IsAsciiLetter(c: char) {
    'A' <= c <= 'Z' || 'a' <= c <= 'z'
  }

  /** `s.replace(/^[A-Za-z]+/, '')`: drops the longest leading run of ASCII letters. */
  function StripLeadingLetters(s: string): (r: string)
    ensures |r| <= |s| && r == s[|s| - |r|..]
    ensures forall i :: 0 <= i < |s| - |r| ==> IsAsciiLetter(s[i])
    ensures r == [] || !IsAsciiLetter(r[0])
    decreases |s|
  {
    if |s| > 0 && IsAsciiLetter(s[0]) then StripLeadingLetters(s[1..]) else s
  }

  /** `getColorLabel`: the full code when several brands are shown, otherwise the code
      without its letter prefix (`"H02"` becomes `"02"`). */
  function GetColorLabel(color: BeadColor, multiBrand: bool): (shown: string)
    ensures multiBrand ==> shown == color.code
    ensures !multiBrand ==> StripLeadingLetters(color.code) == shown
  {
    if !multiBrand then StripLeadingLetters(color.code) else color.code
  }

  /** The brands of the used colours: `new Set(usedColors.map((c) => c.brand))`. */
  function Brands(used: seq<BeadColor>): set<BrandId> {
    set c | c in used :: c.brand
  }

  lemma TwoElements<T>(s: set<T>)
    requires |s| > 1
    ensures exists a, b :: a in s && b in s && a != b
  {
    var a :| a in s;
    assert |s - {a}| > 0;
    var b :| b in s - {a};
  }

  lemma AtLeastTwo<T>(s: set<T>, a: T, b: T)
    requires a in s && b in s && a != b
    ensures |s| > 1
  {
    assert b in s - {a};
    assert |s - {a}| == |s| - 1;
  }

  /** Two used colours of different brands exist exactly when the brand set has more
      than one element. */
  lemma MultiBrandIff(used: seq<BeadColor>)
    ensures |Brands(used)| > 1 <==>
      exists i, j :: 0 <= i < |used| && 0 <= j < |used| && used[i].brand != used[j].brand
  {
    var brands := Brands(used);
    if |brands| > 1 {
      TwoElements(brands);
      var a, b :| a in brands && b in brands && a != b;
      var ca :| ca in used && ca.brand == a;
      var cb :| cb in used && cb.brand == b;
      var i :| 0 <= i < |used| && used[i] == ca;
      var j :| 0 <= j < |used| && used[j] == cb;
      assert used[i].brand != used[j].brand;
    }
    if exists i, j :: 0 <= i < |used| && 0 <= j < |used| && used[i].brand != used[j].brand {
      var i, j :| 0 <= i < |used| && 0 <= j < |used| && used[i].brand != used[j].brand;
      assert used[i] in used && used[j] in used;
      AtLeastTwo(brands, used[i].brand, used[j].brand);
    }
  }

  /** `isMultiBrand`: the set of brands has more than one element, which holds exactly
      when two used colours have different brands. */
  function IsMultiBrand(used: seq<BeadColor>): (multi: bool)
    ensures multi <==> exists i, j :: 0 <= i < |used| && 0 <= j < |used| && used[i].brand != used[j].brand
  {
    MultiBrandIff(used);
    |Brands(used)| > 1
  }

  // ---------------------------------------------------------------------------
  // Options and canvas geometry

  /** `GridRenderOptions`: every field optional. */
  datatype GridRenderOptions = GridRenderOptions(
    cellSize: Option<int>,
    showLabels: Option<bool>,
    showGridLines: Option<bool>,
    showRowColNumbers: Option<bool>,
    labelFontSize: Option<int>,
    headerSize: Option<int>)

  /** The options with every field filled in. */
  datatype RenderSettings = RenderSettings(
    cellSize: int,
    showLabels: bool,
    showGridLines: bool,
    showRowColNumbers: bool,
    labelFontSize: int,
    headerSize: int)

  /** `DEFAULT_OPTIONS`. */
  const DefaultSettings := RenderSettings(40, true, true, true, 0, 30)

  /** `{ ...DEFAULT_OPTIONS, ...options }`: a field the caller gives wins, a missing one
      takes its default. */
  function ResolveOptions(o: GridRenderOptions): (s: RenderSettings)
    ensures o.cellSize.Some? ==> s.cellSize == o.cellSize.value
    ensures o.cellSize.None? ==> s.cellSize == DefaultSettings.cellSize
    ensures o.showLabels.Some? ==> s.showLabels == o.showLabels.value
    ensures o.showLabels.None? ==> s.showLabels == DefaultSettings.showLabels
    ensures o.showGridLines.Some? ==> s.showGridLines == o.showGridLines.value
    ensures o.showGridLines.None? ==> s.showGridLines == DefaultSettings.showGridLines
    ensures o.showRowColNumbers.Some? ==> s.showRowColNumbers == o.showRowColNumbers.value
    ensures o.showRowColNumbers.None? ==> s.showRowColNumbers == DefaultSettings.showRowColNumbers
    ensures o.labelFontSize.Some? ==> s.labelFontSize == o.labelFontSize.value
    ensures o.labelFontSize.None? ==> s.labelFontSize == DefaultSettings.labelFontSize
    ensures o.headerSize.Some? ==> s.headerSize == o.headerSize.value
    ensures o.headerSize.None? ==> s.headerSize == DefaultSettings.headerSize
  {
    RenderSettings(
      o.cellSize.GetOr(DefaultSettings.cellSize),
      o.showLabels.GetOr(DefaultSettings.showLabels),
      o.showGridLines.GetOr(DefaultSettings.showGridLines),
      o.showRowColNumbers.GetOr(DefaultSettings.showRowColNumbers),
      o.labelFontSize.GetOr(DefaultSettings.labelFontSize),
      o.headerSize.GetOr(DefaultSettings.headerSize))
  }

  /** The offsets of the cell area and the canvas size. */
  datatype Layout = Layout(offsetX: int, offsetY: int, totalW: int, totalH: int)

  /** `offsetX`/`offsetY` are the header size when row and column numbers are shown and 0
      otherwise; the canvas is the offset plus `width` (`height`) cells. */
  function GridLayout(width: nat, height: nat, s: RenderSettings): (l: Layout)
    ensures l.offsetX == l.offsetY == (if s.showRowColNumbers then s.headerSize else 0)
    ensures l.totalW == l.offsetX + width * s.cellSize
    ensures l.totalH == l.offsetY + height * s.cellSize
  {
    var offset := if s.showRowColNumbers then s.headerSize else 0;
    Layout(offset, offset, offset + width * s.cellSize, offset + height * s.cellSize)
  }

  /** The top-left corner of cell `(x, y)`: `offsetX + x * cellSize`, `offsetY + y * cellSize`. */
  function CellOrigin(l: Layout, s: RenderSettings, x: nat, y: nat): (int, int) {
    (l.offsetX + x * s.cellSize, l.offsetY + y * s.cellSize)
  }

  lemma MulLe(a: nat, b: nat, c: nat)
    requires a <= b
    ensures a * c <= b * c
  {
  }

  /** With a non-negative cell size and header, the cells tile the canvas: every cell lies
      right of and below the header band and inside the canvas, and neighbouring cells
      are exactly one cell size apart. */
  lemma CellsInsideCanvas(width: nat, height: nat, s: RenderSettings, x: nat, y: nat)
    requires s.cellSize >= 0 && s.headerSize >= 0
    requires x < width && y < height
    ensures var l := GridLayout(width, height, s);
      var (px, py) := CellOrigin(l, s, x, y);
      && l.offsetX <= px && px + s.cellSize <= l.totalW
      && l.offsetY <= py && py + s.cellSize <= l.totalH
      && CellOrigin(l, s, x + 1, y).0 == px + s.cellSize
      && CellOrigin(l, s, x, y + 1).1 == py + s.cellSize
  {
    MulLe(x + 1, width, s.cellSize);
    MulLe(y + 1, height, s.cellSize);
  }

  // ---------------------------------------------------------------------------
  // The materials list

  /** `n` copies of `c`. */
  function Repeat(c: char, n: nat): (r: string)
    ensures |r| == n && forall i :: 0 <= i < n ==> r[i] == c
  {
    seq(n, _ => c)
  }

  const Title := Repeat('=', 10) + " 拼豆用料清单 " + Repeat('=', 10)
  const Rule := Repeat('-', 34)
  const Footer := Repeat('=', 34)
  /** The six spaces between column titles. */
  const Gap := Spaces(6)
  const SizePrefix := "尺寸: "
  const TotalPrefix := "总豆数: "
  const ColorsPrefix := "使用颜色: "
  const BeadsSuffix := " 颗"
  const KindsSuffix := " 种"

  /** The column titles; the brand column exists exactly for a multi-brand list. */
  function ColumnHeader(multiBrand: bool): (header: string)
    ensures StartsWith(header, "品牌") <==> multiBrand
  {
    if multiBrand then
      assert ("品牌" + Gap + "色号" + Gap + "颜色名称" + Gap + "数量")[..2] == "品牌";
      "品牌" + Gap + "色号" + Gap + "颜色名称" + Gap + "数量"
    else
      assert ("色号" + Gap + "颜色名称" + Gap + "数量")[..2] == "色号";
      "色号" + Gap + "颜色名称" + Gap + "数量"
  }

  /** The line for one used colour: brand (multi-brand only), code and name each padded
      to 10 characters, then the count and the unit. */
  function BodyLine(color: BeadColor, count: nat, multiBrand: bool): string {
    if multiBrand then
      PadEnd(BrandName(color.brand), 10) + PadEnd(color.code, 10) + PadEnd(color.name, 10) + NatToDecimal(count) + BeadsSuffix
    else
      PadEnd(color.code, 10) + PadEnd(color.name, 10) + NatToDecimal(count) + BeadsSuffix
  }

  /** One line per used colour, in order, with the colour's count or 0. */
  function BodyLines(used: seq<BeadColor>, stats: map<string, nat>, multiBrand: bool): (lines: seq<string>)
    ensures |lines| == |used|
    ensures forall k :: 0 <= k < |used| ==> lines[k] == BodyLine(used[k], GetOrDefault(stats, used[k].uid, 0), multiBrand)
    decreases |used|
  {
    if |used| == 0 then []
    else
      var last := used[|used| - 1];
      BodyLines(used[..|used| - 1], stats, multiBrand) + [BodyLine(last, GetOrDefault(stats, last.uid, 0), multiBrand)]
  }

  lemma BodyLinesSnoc(used: seq<BeadColor>, stats: map<string, nat>, multiBrand: bool, i: nat)
    requires i < |used|
    ensures BodyLines(used[..i + 1], stats, multiBrand)
      == BodyLines(used[..i], stats, multiBrand) + [BodyLine(used[i], GetOrDefault(stats, used[i].uid, 0), multiBrand)]
  {
    assert used[..i + 1][..i] == used[..i];
  }

  /** `尺寸: ${width} × ${height}`. */
  function SizeLine(width: nat, height: nat): (line: string)
    ensures StartsWith(line, SizePrefix)
  {
    SizePrefix + NatToDecimal(width) + (" × " + NatToDecimal(height))
  }

  /** Both numbers of `SizeLine` read back with `parseInt`: the width after the label,
      the height after the width and the ` × `. */
  lemma SizeLineReadBack(width: nat, height: nat)
    ensures ParseIntPrefix(SizeLine(width, height)[|SizePrefix|..], 10) == Some(width)
    ensures ParseIntPrefix(SizeLine(width, height)[|SizePrefix| + |NatToDecimal(width)| + |" × "|..], 10) == Some(height)
  {
    SizeLineWidth(width, height);
    SizeLineHeight(width, height);
  }

  lemma SizeLineWidth(width: nat, height: nat)
    ensures ParseIntPrefix(SizeLine(width, height)[|SizePrefix|..], 10) == Some(width)
  {
    ReadNumber(SizePrefix, width, " × " + NatToDecimal(height));
  }

  lemma SizeLineHeight(width: nat, height: nat)
    ensures ParseIntPrefix(SizeLine(width, height)[|SizePrefix| + |NatToDecimal(width)| + |" × "|..], 10) == Some(height)
  {
    SizeLineTail(width, height);
    DecimalRoundTrip(height, []);
  }

  /** What follows the width and the ` × ` in `SizeLine` is the height. */
  lemma SizeLineTail(width: nat, height: nat)
    ensures SizeLine(width, height)[|SizePrefix| + |NatToDecimal(width)| + |" × "|..] == NatToDecimal(height) + []
  {
    var before := SizePrefix + NatToDecimal(width) + " × ";
    assert SizeLine(width, height) == before + (NatToDecimal(height) + []);
  }

  /** `总豆数: ${totalBeads} 颗`. */
  function TotalLine(total: nat): (line: string)
    ensures StartsWith(line, TotalPrefix)
  {
    TotalPrefix + NatToDecimal(total) + BeadsSuffix
  }

  /** The number after the label of `TotalLine` reads back with `parseInt`. */
  lemma TotalLineReadBack(total: nat)
    ensures ParseIntPrefix(TotalLine(total)[|TotalPrefix|..], 10) == Some(total)
  {
    ReadNumber(TotalPrefix, total, BeadsSuffix);
  }

  /** `使用颜色: ${usedColors.length} 种`. */
  function ColorsLine(kinds: nat): (line: string)
    ensures StartsWith(line, ColorsPrefix)
  {
    ColorsPrefix + NatToDecimal(kinds) + KindsSuffix
  }

  /** The number after the label of `ColorsLine` reads back with `parseInt`. */
  lemma ColorsLineReadBack(kinds: nat)
    ensures ParseIntPrefix(ColorsLine(kinds)[|ColorsPrefix|..], 10) == Some(kinds)
  {
    ReadNumber(ColorsPrefix, kinds, KindsSuffix);
  }

  /** The seven lines before the colour list. */
  function HeadLines(result: QuantizeResult, multiBrand: bool): seq<string> {
    [ Title,
      SizeLine(result.width, result.height),
      TotalLine(result.totalBeads),
      ColorsLine(|result.usedColors|),
      Rule,
      ColumnHeader(multiBrand),
      Rule ]
  }

  /** The lines of the materials list. */
  function MaterialLines(result: QuantizeResult): seq<string> {
    var multi := IsMultiBrand(result.usedColors);
    HeadLines(result, multi) + BodyLines(result.usedColors, result.colorStats, multi) + [Footer]
  }

  /** The loop of `generateMaterialText`: pushes the line of each used colour, in order,
      with its count from `stats` or 0. */
  method PushBodyLines(lines: seq<string>, used: seq<BeadColor>, stats: map<string, nat>, multiBrand: bool)
    returns (out: seq<string>)
    ensures out == lines + BodyLines(used, stats, multiBrand)
  {
    out := lines;
    assert used[..0] == [];
    for i := 0 to |used|
      invariant out == lines + BodyLines(used[..i], stats, multiBrand)
    {
      var color := used[i];
      var count := GetOrDefault(stats, color.uid, 0);
      BodyLinesSnoc(used, stats, multiBrand, i);
      out := out + [BodyLine(color, count, multiBrand)];
    }
    assert used[..|used|] == used;
  }

  /** `generateMaterialText(result)`: the seven head lines, one line per used colour
      pushed in order, the closing rule, all joined with newlines. */
  method GenerateMaterialText(result: QuantizeResult) returns (text: string)
    ensures text == Join(MaterialLines(result), "\n")
  {
    var multiBrand := IsMultiBrand(result.usedColors);
    var lines := [Title, SizeLine(result.width, result.height), TotalLine(result.totalBeads),
                  ColorsLine(|result.usedColors|), Rule, ColumnHeader(multiBrand), Rule];
    lines := PushBodyLines(lines, result.usedColors, result.colorStats, multiBrand);
    lines := lines + [Footer];
    text := Join(lines, "\n");
  }

  /** Where the pieces of `a + b + [c]` sit. */
  lemma Parts<T>(a: seq<T>, b: seq<T>, c: T)
    ensures |a + b + [c]| == |a| + |b| + 1
    ensures (a + b + [c])[..|a|] == a
    ensures forall k :: 0 <= k < |b| ==> (a + b + [c])[|a| + k] == b[k]
    ensures (a + b + [c])[|a| + |b|] == c
  {
    assert (a + b + [c])[..|a|] == a;
  }

  /** The shape of the list: the seven head lines, then line `7 + k` for used colour
      `k` with its count (0 when the colour has none), then the closing rule, so
      `|usedColors| + 8` lines in all. */
  lemma MaterialLinesShape(result: QuantizeResult)
    ensures |MaterialLines(result)| == |result.usedColors| + 8
    ensures MaterialLines(result)[..7] == HeadLines(result, IsMultiBrand(result.usedColors))
    ensures forall k :: 0 <= k < |result.usedColors| ==>
      MaterialLines(result)[7 + k]
        == BodyLine(result.usedColors[k], GetOrDefault(result.colorStats, result.usedColors[k].uid, 0),
                    IsMultiBrand(result.usedColors))
    ensures MaterialLines(result)[|result.usedColors| + 7] == Footer
  {
    var multi := IsMultiBrand(result.usedColors);
    Parts(HeadLines(result, multi), BodyLines(result.usedColors, result.colorStats, multi), Footer);
  }

  /** No line of the list contains a newline when no code or name does. */
  ghost predicate NoNewlines(used: seq<BeadColor>) {
    forall c :: c in used ==> '\n' !in c.code && '\n' !in c.name
  }

  lemma DecimalHasNoNewline(n: nat)
    ensures '\n' !in NatToDecimal(n)
  {
  }

  lemma PadEndNoNewline(s: string, n: nat)
    requires '\n' !in s
    ensures '\n' !in PadEnd(s, n)
  {
    var r := PadEnd(s, n);
    forall i | 0 <= i < |r| ensures r[i] != '\n' {
      if i < |s| {
        assert r[i] == r[..|s|][i];
      }
    }
  }

  lemma BodyLineNoNewline(color: BeadColor, count: nat, multiBrand: bool)
    requires '\n' !in color.code && '\n' !in color.name
    ensures '\n' !in BodyLine(color, count, multiBrand)
  {
    PadEndNoNewline(color.code, 10);
    PadEndNoNewline(color.name, 10);
    DecimalHasNoNewline(count);
    assert '\n' !in BrandName(color.brand);
    PadEndNoNewline(BrandName(color.brand), 10);
  }

  lemma HeadLinesNoNewline(result: QuantizeResult, multiBrand: bool)
    ensures forall i :: 0 <= i < 7 ==> '\n' !in HeadLines(result, multiBrand)[i]
  {
    DecimalHasNoNewline(result.width);
    DecimalHasNoNewline(result.height);
    DecimalHasNoNewline(result.totalBeads);
    DecimalHasNoNewline(|result.usedColors|);
  }

  /** Every body line is free of newlines when the codes and names are. */
  lemma BodyLinesNoNewline(used: seq<BeadColor>, stats: map<string, nat>, multiBrand: bool)
    requires NoNewlines(used)
    ensures forall k :: 0 <= k < |used| ==> '\n' !in BodyLines(used, stats, multiBrand)[k]
  {
    forall k | 0 <= k < |used| ensures '\n' !in BodyLines(used, stats, multiBrand)[k] {
      assert used[k] in used;
      BodyLineNoNewline(used[k], GetOrDefault(stats, used[k].uid, 0), multiBrand);
    }
  }

  /** A character absent from every piece is absent from every line of `a + b + [c]`. */
  lemma PartsWithout(a: seq<string>, b: seq<string>, c: string, x: char)
    requires forall i :: 0 <= i < |a| ==> x !in a[i]
    requires forall i :: 0 <= i < |b| ==> x !in b[i]
    requires x !in c
    ensures forall i :: 0 <= i < |a + b + [c]| ==> x !in (a + b + [c])[i]
  {
    forall i | 0 <= i < |a + b + [c]| ensures x !in (a + b + [c])[i] {
      if i < |a| {
        assert (a + b + [c])[i] == a[i];
      } else if i < |a| + |b| {
        assert (a + b + [c])[i] == b[i - |a|];
      }
    }
  }

  lemma MaterialLinesNoNewline(result: QuantizeResult)
    requires NoNewlines(result.usedColors)
    ensures forall i :: 0 <= i < |MaterialLines(result)| ==> '\n' !in MaterialLines(result)[i]
  {
    var used := result.usedColors;
    var multi := IsMultiBrand(used);
    HeadLinesNoNewline(result, multi);
    BodyLinesNoNewline(used, result.colorStats, multi);
    assert '\n' !in Footer;
    PartsWithout(HeadLines(result, multi), BodyLines(used, result.colorStats, multi), Footer, '\n');
  }

  /** Splitting the text at newlines gives back exactly the lines that were joined. */
  lemma MaterialTextLines(result: QuantizeResult)
    requires NoNewlines(result.usedColors)
    ensures Split(Join(MaterialLines(result), "\n"), '\n') == MaterialLines(result)
  {
    MaterialLinesNoNewline(result);
    SplitJoin(MaterialLines(result), '\n');
  }

  lemma TwoColumns(a: string, b: string, d: string, s: string)
    requires |a| == 10 && |b| == 10
    ensures var line := a + b + d + s;
      line[..10] == a && line[10..20] == b && line[20..] == d + s
  {
    var line := a + b + d + s;
    assert line == a + (b + (d + s));
  }

  lemma ThreeColumns(p: string, a: string, b: string, d: string, s: string)
    requires |p| == 10 && |a| == 10 && |b| == 10
    ensures var line := p + a + b + d + s;
      line[..10] == p && line[10..20] == a && line[20..30] == b && line[30..] == d + s
  {
    var line := p + a + b + d + s;
    var rest := a + b + d + s;
    TwoColumns(a, b, d, s);
    assert line == p + rest;
    assert line[10..20] == rest[..10];
    assert line[20..30] == rest[10..20];
    assert line[30..] == rest[20..];
  }

  /** When the fields fit their 10-character columns, a colour line has the brand (only
      with several brands), the code and the name at fixed offsets, followed by a count
      that `parseInt` reads back. */
  lemma BodyLineColumns(color: BeadColor, count: nat, multiBrand: bool)
    requires |color.code| <= 10 && |color.name| <= 10
    ensures var line := BodyLine(color, count, multiBrand);
      var off := if multiBrand then 30 else 20;
      && |line| > off
      && (multiBrand ==> line[..10] == PadEnd(BrandName(color.brand), 10))
      && line[off - 20..off - 10] == PadEnd(color.code, 10)
      && line[off - 10..off] == PadEnd(color.name, 10)
      && line[off..] == NatToDecimal(count) + BeadsSuffix
      && ParseIntPrefix(line[off..], 10) == Some(count)
  {
    if multiBrand {
      assert |BrandName(color.brand)| <= 10;
      ThreeColumns(PadEnd(BrandName(color.brand), 10), PadEnd(color.code, 10), PadEnd(color.name, 10),
                   NatToDecimal(count), BeadsSuffix);
    } else {
      TwoColumns(PadEnd(color.code, 10), PadEnd(color.name, 10), NatToDecimal(count), BeadsSuffix);
    }
    DecimalRoundTrip(count, BeadsSuffix);
  }
}
