/** The parts of lib/quantize.ts that are the program's own code: grayscale and
    black/white preprocessing, nearest-colour search, and steps 3, 5, 8 and 9 of
    `quantizeImage`, which turn the image-q library's palette points and result
    points into the bead-colour matrix, the per-uid tally and the used-colour list. */
module Quantize {
  import opened Util
  import opened PaletteRegistry
  import StableSort

  type byte = x: int | 0 <= x < 256

  /** An RGB triple, as the colour distance consumes it. */
  datatype Rgb = Rgb(r: int, g: int, b: int)

  function ColorRgb(c: BeadColor): Rgb {
    Rgb(c.r, c.g, c.b)
  }

  /** The colour distance: `labDistance` of the two colours' `rgb2lab` values. It is a
      parameter of the model, so every property below holds for any distance. */
  type Distance = (Rgb, Rgb) -> real

  // ---------------------------------------------------------------------------
  // Preprocessing

  /** 1000 times the luma `0.299 R + 0.587 G + 0.114 B`, computed exactly. */
  function Luma1000(r: int, g: int, b: int): int {
    299 * r + 587 * g + 114 * b
  }

  /** `Math.round` of the luma: the nearest integer, ties rounded up. */
  function GrayOf(r: byte, g: byte, b: byte): (v: byte)
    ensures -500 < 1000 * v - Luma1000(r, g, b) <= 500
  {
    (Luma1000(r, g, b) + 500) / 1000
  }

  /** `gray > 128 ? 255 : 0`. */
  function BwOf(r: byte, g: byte, b: byte): (v: byte)
    ensures v == 0 || v == 255
    ensures v == 255 <==> Luma1000(r, g, b) > 128000
  {
    if Luma1000(r, g, b) > 128000 then 255 else 0
  }

  /** Byte `i` of the grayscale image: each pixel's R, G and B become its rounded luma,
      alpha is copied. */
  function GrayscaleByte(p: seq<byte>, i: nat): byte
    requires |p| % 4 == 0 && i < |p|
  {
    var q := i - i % 4;
    if i % 4 == 3 then p[i] else GrayOf(p[q], p[q + 1], p[q + 2])
  }

  /** Byte `i` of the black/white image. */
  function BwByte(p: seq<byte>, i: nat): byte
    requires |p| % 4 == 0 && i < |p|
  {
    var q := i - i % 4;
    if i % 4 == 3 then p[i] else BwOf(p[q], p[q + 1], p[q + 2])
  }

  lemma NextPixel(i: nat)
    requires i % 4 == 0
    ensures (i + 4) % 4 == 0
  {
  }

  /** The four bytes of the pixel starting at `i`. */
  lemma GrayscaleQuad(p: seq<byte>, i: nat)
    requires |p| % 4 == 0 && i % 4 == 0 && i < |p|
    ensures i + 3 < |p|
    ensures var g := GrayOf(p[i], p[i + 1], p[i + 2]);
      GrayscaleByte(p, i) == g && GrayscaleByte(p, i + 1) == g && GrayscaleByte(p, i + 2) == g
      && GrayscaleByte(p, i + 3) == p[i + 3]
  {
    assert (i + 1) % 4 == 1 && (i + 2) % 4 == 2 && (i + 3) % 4 == 3;
  }

  lemma BwQuad(p: seq<byte>, i: nat)
    requires |p| % 4 == 0 && i % 4 == 0 && i < |p|
    ensures i + 3 < |p|
    ensures var v := BwOf(p[i], p[i + 1], p[i + 2]);
      BwByte(p, i) == v && BwByte(p, i + 1) == v && BwByte(p, i + 2) == v && BwByte(p, i + 3) == p[i + 3]
  {
    assert (i + 1) % 4 == 1 && (i + 2) % 4 == 2 && (i + 3) % 4 == 3;
  }

  /** Writing the pixel at `i` extends the correctly converted prefix by four bytes. */
  lemma GrayscaleStep(p: seq<byte>, before: seq<byte>, after: seq<byte>, i: nat)
    requires |p| % 4 == 0 && i % 4 == 0 && i + 4 <= |p| && |before| == |p| && |after| == |p|
    requires forall k :: 0 <= k < i ==> before[k] == GrayscaleByte(p, k)
    requires forall k :: 0 <= k < i ==> after[k] == before[k]
    requires var g := GrayOf(p[i], p[i + 1], p[i + 2]);
      after[i] == g && after[i + 1] == g && after[i + 2] == g && after[i + 3] == p[i + 3]
    ensures forall k :: 0 <= k < i + 4 ==> after[k] == GrayscaleByte(p, k)
  {
    GrayscaleQuad(p, i);
    forall k | 0 <= k < i + 4 ensures after[k] == GrayscaleByte(p, k) {
      if k >= i {
        assert k == i || k == i + 1 || k == i + 2 || k == i + 3;
      }
    }
  }

  lemma BwStep(p: seq<byte>, before: seq<byte>, after: seq<byte>, i: nat)
    requires |p| % 4 == 0 && i % 4 == 0 && i + 4 <= |p| && |before| == |p| && |after| == |p|
    requires forall k :: 0 <= k < i ==> before[k] == BwByte(p, k)
    requires forall k :: 0 <= k < i ==> after[k] == before[k]
    requires var v := BwOf(p[i], p[i + 1], p[i + 2]);
      after[i] == v && after[i + 1] == v && after[i + 2] == v && after[i + 3] == p[i + 3]
    ensures forall k :: 0 <= k < i + 4 ==> after[k] == BwByte(p, k)
  {
    BwQuad(p, i);
    forall k | 0 <= k < i + 4 ensures after[k] == BwByte(p, k) {
      if k >= i {
        assert k == i || k == i + 1 || k == i + 2 || k == i + 3;
      }
    }
  }

  /** `toGrayscale(pixels)`: a fresh buffer of the same length filled four bytes at a time. */
  method ToGrayscale(pixels: array<byte>) returns (result: array<byte>)
    requires pixels.Length % 4 == 0
    ensures result.Length == pixels.Length
    ensures forall i :: 0 <= i < result.Length ==> result[i] == GrayscaleByte(pixels[..], i)
  {
    ghost var p := pixels[..];
    result := new byte[pixels.Length];
    var i := 0;
    while i < pixels.Length
      invariant 0 <= i <= pixels.Length && i % 4 == 0
      invariant forall k :: 0 <= k < i ==> result[k] == GrayscaleByte(p, k)
    {
      GrayscaleQuad(p, i);
      ghost var before := result[..];
      var gray := GrayOf(pixels[i], pixels[i + 1], pixels[i + 2]);
      result[i] := gray;
      result[i + 1] := gray;
      result[i + 2] := gray;
      result[i + 3] := pixels[i + 3];
      GrayscaleStep(p, before, result[..], i);
      NextPixel(i);
      i := i + 4;
    }
  }

  /** `toBW(pixels)`. */
  method ToBW(pixels: array<byte>) returns (result: array<byte>)
    requires pixels.Length % 4 == 0
    ensures result.Length == pixels.Length
    ensures forall i :: 0 <= i < result.Length ==> result[i] == BwByte(pixels[..], i)
  {
    ghost var p := pixels[..];
    result := new byte[pixels.Length];
    var i := 0;
    while i < pixels.Length
      invariant 0 <= i <= pixels.Length && i % 4 == 0
      invariant forall k :: 0 <= k < i ==> result[k] == BwByte(p, k)
    {
      BwQuad(p, i);
      ghost var before := result[..];
      var bw := BwOf(pixels[i], pixels[i + 1], pixels[i + 2]);
      result[i] := bw;
      result[i + 1] := bw;
      result[i + 2] := bw;
      result[i + 3] := pixels[i + 3];
      BwStep(p, before, result[..], i);
      NextPixel(i);
      i := i + 4;
    }
  }

  /** After grayscale every pixel has R == G == B, equal to its rounded luma, and keeps
      its alpha. */
  lemma GrayscalePixel(p: seq<byte>, q: nat)
    requires |p| % 4 == 0 && 4 * q + 3 < |p|
    ensures GrayscaleByte(p, 4 * q) == GrayscaleByte(p, 4 * q + 1) == GrayscaleByte(p, 4 * q + 2)
    ensures -500 < 1000 * GrayscaleByte(p, 4 * q) - Luma1000(p[4 * q], p[4 * q + 1], p[4 * q + 2]) <= 500
    ensures GrayscaleByte(p, 4 * q + 3) == p[4 * q + 3]
  {
    assert (4 * q) % 4 == 0 && (4 * q + 1) % 4 == 1 && (4 * q + 2) % 4 == 2 && (4 * q + 3) % 4 == 3;
  }

  /** After black/white every colour byte is 0 or 255, 255 exactly when the pixel's luma
      is strictly above 128, and alpha is kept. */
  lemma BwPixel(p: seq<byte>, q: nat)
    requires |p| % 4 == 0 && 4 * q + 3 < |p|
    ensures BwByte(p, 4 * q) == BwByte(p, 4 * q + 1) == BwByte(p, 4 * q + 2)
    ensures BwByte(p, 4 * q) == 255 <==> Luma1000(p[4 * q], p[4 * q + 1], p[4 * q + 2]) > 128000
    ensures BwByte(p, 4 * q) == 0 || BwByte(p, 4 * q) == 255
    ensures BwByte(p, 4 * q + 3) == p[4 * q + 3]
  {
    assert (4 * q) % 4 == 0 && (4 * q + 1) % 4 == 1 && (4 * q + 2) % 4 == 2 && (4 * q + 3) % 4 == 3;
  }

  // ---------------------------------------------------------------------------
  // Nearest colour

  /** Index of the entry `findNearestColor`'s scan keeps after looking at the first `n`
      entries: a later entry replaces the kept one only when strictly closer. */
  function NearestAmong(q: Rgb, palette: seq<BeadColor>, dist: Distance, n: nat): (k: nat)
    requires 1 <= n <= |palette|
    ensures k < n
  {
    if n == 1 then 0
    else
      var k := NearestAmong(q, palette, dist, n - 1);
      if dist(q, ColorRgb(palette[n - 1])) < dist(q, ColorRgb(palette[k])) then n - 1 else k
  }

  function NearestIndex(q: Rgb, palette: seq<BeadColor>, dist: Distance): (k: nat)
    requires |palette| > 0
    ensures k < |palette|
  {
    NearestAmong(q, palette, dist, |palette|)
  }

  /** The colour of the nearest entry. */
  function Nearest(q: Rgb, palette: seq<BeadColor>, dist: Distance): (c: BeadColor)
    requires |palette| > 0
  {
    palette[NearestIndex(q, palette, dist)]
  }

  /** `k` is a closest entry and no earlier entry is as close: the first arg-min. */
  ghost predicate IsFirstArgMin(q: Rgb, palette: seq<BeadColor>, dist: Distance, k: nat) {
    && k < |palette|
    && (forall j :: 0 <= j < |palette| ==> dist(q, ColorRgb(palette[k])) <= dist(q, ColorRgb(palette[j])))
    && (forall j :: 0 <= j < k ==> dist(q, ColorRgb(palette[k])) < dist(q, ColorRgb(palette[j])))
  }

  lemma {:induction false} NearestAmongIsFirstArgMin(q: Rgb, palette: seq<BeadColor>, dist: Distance, n: nat)
    requires 1 <= n <= |palette|
    ensures IsFirstArgMin(q, palette[..n], dist, NearestAmong(q, palette, dist, n))
  {
    if n > 1 {
      NearestAmongIsFirstArgMin(q, palette, dist, n - 1);
      assert forall j :: 0 <= j < n - 1 ==> palette[..n][j] == palette[..n - 1][j];
    }
  }

  /** The scan's result is a closest entry, and on ties the earliest one. */
  lemma NearestIsFirstArgMin(q: Rgb, palette: seq<BeadColor>, dist: Distance)
    requires |palette| > 0
    ensures IsFirstArgMin(q, palette, dist, NearestIndex(q, palette, dist))
  {
    NearestAmongIsFirstArgMin(q, palette, dist, |palette|);
    assert palette[..|palette|] == palette;
  }

  /** The first arg-min is unique, so it pins the scan's result down. */
  lemma FirstArgMinUnique(q: Rgb, palette: seq<BeadColor>, dist: Distance, k1: nat, k2: nat)
    requires IsFirstArgMin(q, palette, dist, k1) && IsFirstArgMin(q, palette, dist, k2)
    ensures k1 == k2
  {
    var d1, d2 := dist(q, ColorRgb(palette[k1])), dist(q, ColorRgb(palette[k2]));
    assert d1 <= d2 && d2 <= d1;
  }

  /** `findNearestColor(r, g, b, palette)`: `best` starts as `palette[0]` and `bestDist` as
      `Infinity` (here `None`). An empty palette gives `undefined`, here `None`. */
  method FindNearestColor(q: Rgb, palette: seq<BeadColor>, dist: Distance) returns (best: Option<BeadColor>)
    ensures palette == [] <==> best.None?
    ensures palette != [] ==> best == Some(Nearest(q, palette, dist))
  {
    if |palette| == 0 {
      return None;
    }
    var chosen := palette[0];
    var bestDist: Option<real> := None;
    ghost var k := 0;
    for i := 0 to |palette|
      invariant i == 0 ==> bestDist.None? && chosen == palette[0]
      invariant i > 0 ==>
        k == NearestAmong(q, palette, dist, i) && chosen == palette[k] && bestDist == Some(dist(q, ColorRgb(chosen)))
    {
      var color := palette[i];
      var d := dist(q, ColorRgb(color));
      if bestDist.None? || d < bestDist.value {
        bestDist := Some(d);
        chosen := color;
        k := i;
      }
    }
    best := Some(chosen);
  }

  // ---------------------------------------------------------------------------
  // Step 3: the colour budget

  /** `maxColors > 0 ? Math.min(maxColors, basePalette.length) : basePalette.length`. */
  function EffectiveMaxColors(maxColors: int, baseLength: nat): (n: nat)
    ensures n <= baseLength
    ensures maxColors > 0 ==> n <= maxColors && (n == maxColors || n == baseLength)
    ensures maxColors <= 0 ==> n == baseLength
  {
    if maxColors > 0 then (if maxColors < baseLength then maxColors else baseLength) else baseLength
  }

  // ---------------------------------------------------------------------------
  // Step 5: palette points -> bead colours, deduplicated by uid

  function Uids(s: seq<BeadColor>): set<string> {
    set c | c in s :: c.uid
  }

  ghost predicate DistinctUids(s: seq<BeadColor>) {
    forall i, j :: 0 <= i < j < |s| ==> s[i].uid != s[j].uid
  }

  /** The nearest base colour of each point, in point order. */
  function NearestColors(points: seq<Rgb>, base: seq<BeadColor>, dist: Distance): (s: seq<BeadColor>)
    requires |points| == 0 || |base| > 0
    ensures |s| == |points|
    ensures forall i :: 0 <= i < |s| ==> s[i] == Nearest(points[i], base, dist)
  {
    seq(|points|, i requires 0 <= i < |points| && |base| > 0 => Nearest(points[i], base, dist))
  }

  /** What the `usedColorSet` Map's values are once every colour has been offered in turn:
      a colour is kept unless one with its uid is already there. */
  function DedupByUid(s: seq<BeadColor>): seq<BeadColor>
    decreases |s|
  {
    if |s| == 0 then []
    else
      var d := DedupByUid(s[..|s| - 1]);
      if s[|s| - 1].uid in Uids(d) then d else d + [s[|s| - 1]]
  }

  /** Index of the first element of `s` with uid `u`. */
  ghost function FirstWithUid(s: seq<BeadColor>, u: string): (i: nat)
    requires u in Uids(s)
    ensures i < |s| && s[i].uid == u
    ensures forall j :: 0 <= j < i ==> s[j].uid != u
    decreases |s|
  {
    var init := s[..|s| - 1];
    if u in Uids(init) then
      var i := FirstWithUid(init, u);
      i
    else
      assert forall j :: 0 <= j < |s| - 1 ==> s[j] in init;
      |s| - 1
  }

  /** The deduplicated list has no repeated uid, is drawn from the input, is never
      longer than it and covers all of its uids. */
  lemma {:induction false} DedupBasics(s: seq<BeadColor>)
    ensures DistinctUids(DedupByUid(s))
    ensures Uids(DedupByUid(s)) == Uids(s)
    ensures |DedupByUid(s)| <= |s|
    ensures forall c :: c in DedupByUid(s) ==> c in s
    decreases |s|
  {
    if |s| > 0 {
      var init, last := s[..|s| - 1], s[|s| - 1];
      DedupBasics(init);
      var d := DedupByUid(init);
      assert s == init + [last];
      assert Uids(s) == Uids(init) + {last.uid};
      if last.uid !in Uids(d) {
        assert Uids(d + [last]) == Uids(d) + {last.uid};
        forall k | 0 <= k < |d| ensures d[k].uid != last.uid {
          assert d[k] in d;
        }
      }
    }
  }

  /** Each kept colour is the first colour of `s` that carried its uid. */
  ghost predicate KeepsFirst(s: seq<BeadColor>, d: seq<BeadColor>) {
    forall k :: 0 <= k < |d| ==> d[k].uid in Uids(s) && s[FirstWithUid(s, d[k].uid)] == d[k]
  }

  /** The kept colours are listed in order of their uids' first occurrence in `s`. */
  ghost predicate InFirstOrder(s: seq<BeadColor>, d: seq<BeadColor>) {
    forall k1, k2 :: 0 <= k1 < k2 < |d| ==>
      d[k1].uid in Uids(s) && d[k2].uid in Uids(s) && FirstWithUid(s, d[k1].uid) < FirstWithUid(s, d[k2].uid)
  }

  /** Extending `s` keeps the first occurrence of every uid it already had. */
  lemma FirstWithUidInit(s: seq<BeadColor>, u: string)
    requires |s| > 0 && u in Uids(s[..|s| - 1])
    ensures u in Uids(s) && FirstWithUid(s, u) == FirstWithUid(s[..|s| - 1], u)
  {
    var w :| w in s[..|s| - 1] && w.uid == u;
    assert w in s;
  }

  /** `Map.set` on a uid that is already present is skipped, so the first colour with a
      uid wins: each kept colour is the first in `s` to carry its uid. */
  lemma {:induction false} DedupKeepsFirst(s: seq<BeadColor>)
    ensures KeepsFirst(s, DedupByUid(s))
    decreases |s|
  {
    if |s| > 0 {
      var init, last := s[..|s| - 1], s[|s| - 1];
      DedupKeepsFirst(init);
      DedupBasics(init);
      var d := DedupByUid(init);
      forall k | 0 <= k < |DedupByUid(s)|
        ensures DedupByUid(s)[k].uid in Uids(s) && s[FirstWithUid(s, DedupByUid(s)[k].uid)] == DedupByUid(s)[k]
      {
        if k < |d| {
          assert DedupByUid(s)[k] == d[k];
          FirstWithUidInit(s, d[k].uid);
        } else {
          assert last in s;
          assert last.uid !in Uids(init);
        }
      }
    }
  }

  /** A Map keeps insertion order and a skipped `set` does not move its entry, so the
      kept colours are in order of their uids' first occurrence in `s`. */
  lemma {:induction false} DedupInFirstOrder(s: seq<BeadColor>)
    ensures InFirstOrder(s, DedupByUid(s))
    decreases |s|
  {
    if |s| > 0 {
      var init, last := s[..|s| - 1], s[|s| - 1];
      DedupInFirstOrder(init);
      DedupBasics(init);
      var d := DedupByUid(init);
      var d' := DedupByUid(s);
      forall k | 0 <= k < |d| ensures d[k].uid in Uids(s) && FirstWithUid(s, d[k].uid) == FirstWithUid(init, d[k].uid) {
        assert d[k] in d;
        FirstWithUidInit(s, d[k].uid);
      }
      forall k1, k2 | 0 <= k1 < k2 < |d'|
        ensures d'[k1].uid in Uids(s) && d'[k2].uid in Uids(s)
        ensures FirstWithUid(s, d'[k1].uid) < FirstWithUid(s, d'[k2].uid)
      {
        assert d'[k1] == d[k1];
        if k2 < |d| {
          assert d'[k2] == d[k2];
        } else {
          assert d'[k2] == last && last in s;
          assert last.uid !in Uids(init);
        }
      }
    }
  }

  lemma DedupSnoc(s: seq<BeadColor>, i: nat)
    requires i < |s|
    ensures DedupByUid(s[..i + 1])
      == if s[i].uid in Uids(DedupByUid(s[..i])) then DedupByUid(s[..i]) else DedupByUid(s[..i]) + [s[i]]
  {
    assert s[..i + 1][..i] == s[..i];
  }

  lemma UidsSnoc(s: seq<BeadColor>, c: BeadColor)
    ensures Uids(s + [c]) == Uids(s) + {c.uid}
  {
    assert forall d :: d in s + [c] <==> d in s || d == c;
  }

  /** Step 5. `None` when a point has no nearest colour because the base palette is
      empty (the source then throws reading `.uid` of `undefined`). */
  method MapPaletteToBeads(points: seq<Rgb>, base: seq<BeadColor>, dist: Distance) returns (target: Option<seq<BeadColor>>)
    ensures target.None? <==> (|base| == 0 && |points| > 0)
    ensures target.Some? ==> target.value == DedupByUid(NearestColors(points, base, dist))
  {
    if |base| == 0 && |points| > 0 {
      var nearest := FindNearestColor(points[0], base, dist);
      assert nearest.None?;
      return None;
    }
    ghost var offered := NearestColors(points, base, dist);
    var values: seq<BeadColor> := [];
    var used: set<string> := {};
    for i := 0 to |points|
      invariant values == DedupByUid(offered[..i])
      invariant used == Uids(values)
    {
      var nearest := FindNearestColor(points[i], base, dist);
      DedupSnoc(offered, i);
      if nearest.value.uid !in used {
        UidsSnoc(values, nearest.value);
        used := used + {nearest.value.uid};
        values := values + [nearest.value];
      }
    }
    assert offered[..|points|] == offered;
    return Some(values);
  }

  /** The target palette is drawn from the base palette, has no repeated uid, and has at
      most as many colours as there were palette points (the point count image-q returns
      is at most `effectiveMaxColors`). */
  lemma TargetPaletteProperties(points: seq<Rgb>, base: seq<BeadColor>, dist: Distance)
    requires |base| > 0
    ensures var t := DedupByUid(NearestColors(points, base, dist));
      DistinctUids(t) && |t| <= |points| && forall c :: c in t ==> c in base
  {
    DedupBasics(NearestColors(points, base, dist));
  }

  // ---------------------------------------------------------------------------
  // Step 8: matrix and colorStats

  /** Number of colours in `s` with uid `u`. */
  function CountUid(s: seq<BeadColor>, u: string): nat
    decreases |s|
  {
    if |s| == 0 then 0 else CountUid(s[..|s| - 1], u) + (if s[|s| - 1].uid == u then 1 else 0)
  }

  /** The `colorStats` Map `m` after the cells have been tallied into it in order:
      `colorStats.set(uid, (colorStats.get(uid) || 0) + 1)`. */
  function TallyInto(m: map<string, nat>, cells: seq<BeadColor>): map<string, nat>
    decreases |cells|
  {
    if |cells| == 0 then m
    else
      var m' := TallyInto(m, cells[..|cells| - 1]);
      var u := cells[|cells| - 1].uid;
      m'[u := GetOrDefault(m', u, 0) + 1]
  }

  /** The tally of `cells` from an empty Map. */
  function Tally(cells: seq<BeadColor>): map<string, nat> {
    TallyInto(map[], cells)
  }

  lemma TallyIntoSnoc(m: map<string, nat>, cells: seq<BeadColor>, c: BeadColor)
    ensures TallyInto(m, cells + [c])
      == TallyInto(m, cells)[c.uid := GetOrDefault(TallyInto(m, cells), c.uid, 0) + 1]
  {
    assert (cells + [c])[..|cells|] == cells;
  }

  lemma {:induction false} TallyIntoAppend(m: map<string, nat>, a: seq<BeadColor>, b: seq<BeadColor>)
    ensures TallyInto(m, a + b) == TallyInto(TallyInto(m, a), b)
    decreases |b|
  {
    if |b| == 0 {
      assert a + b == a;
    } else {
      assert (a + b)[..|a + b| - 1] == a + b[..|b| - 1];
      TallyIntoAppend(m, a, b[..|b| - 1]);
    }
  }

  /** The tally's keys are exactly the cells' uids, each counted as often as it occurs. */
  lemma {:induction false} TallyCounts(cells: seq<BeadColor>)
    ensures Tally(cells).Keys == Uids(cells)
    ensures forall u :: u in Tally(cells) ==> Tally(cells)[u] == CountUid(cells, u)
    decreases |cells|
  {
    if |cells| > 0 {
      var init, last := cells[..|cells| - 1], cells[|cells| - 1];
      TallyCounts(init);
      assert cells == init + [last];
      assert Uids(cells) == Uids(init) + {last.uid};
      if last.uid !in Uids(init) {
        CountUidAbsent(init, last.uid);
      }
    }
  }

  /** `height` rows of `width` cells; row `y` holds cells `width*y .. width*y + width`. */
  function Rows(cells: seq<BeadColor>, width: nat, height: nat): (m: seq<seq<BeadColor>>)
    requires |cells| == width * height
    ensures |m| == height
    ensures forall y :: 0 <= y < height ==> |m[y]| == width
    decreases height
  {
    if height == 0 then []
    else
      var start := width * (height - 1);
      assert start + width == width * height;
      Rows(cells[..start], width, height - 1) + [cells[start..]]
  }

  /** Cell `[y][x]` of the matrix is cell `width*y + x` of the flat list. */
  lemma {:induction false} RowsCell(cells: seq<BeadColor>, width: nat, height: nat, y: nat, x: nat)
    requires |cells| == width * height && y < height && x < width
    ensures width * y + x < |cells|
    ensures Rows(cells, width, height)[y][x] == cells[width * y + x]
    decreases height
  {
    var start := width * (height - 1);
    if y < height - 1 {
      MulStep(width, y, height - 1);
      RowsInitRow(cells, width, height, y);
      RowsCell(cells[..start], width, height - 1, y, x);
    } else {
      RowsLastRow(cells, width, height);
      MulFlat(width, y, height - 1);
    }
  }

  lemma RowsUnfold(cells: seq<BeadColor>, width: nat, height: nat)
    requires |cells| == width * height && height > 0
    ensures var start := width * (height - 1);
      && start + width == |cells|
      && Rows(cells, width, height) == Rows(cells[..start], width, height - 1) + [cells[start..]]
  {
    MulStep(width, height - 1, height);
  }

  /** A row above the last is a row of the matrix of the cells above the last row. */
  lemma RowsInitRow(cells: seq<BeadColor>, width: nat, height: nat, y: nat)
    requires |cells| == width * height && y < height - 1
    ensures var start := width * (height - 1);
      && start <= |cells| && |cells[..start]| == width * (height - 1)
      && Rows(cells, width, height)[y] == Rows(cells[..start], width, height - 1)[y]
  {
    RowsUnfold(cells, width, height);
  }

  /** The last row holds the last `width` cells. */
  lemma RowsLastRow(cells: seq<BeadColor>, width: nat, height: nat)
    requires |cells| == width * height && height > 0
    ensures var start := width * (height - 1);
      && start + width == |cells|
      && Rows(cells, width, height)[height - 1] == cells[start..]
  {
    RowsUnfold(cells, width, height);
  }

  lemma MulFlat(width: nat, y: nat, z: nat)
    requires y == z
    ensures width * y == width * z
  {
  }

  lemma MulStep(width: nat, y: nat, height: nat)
    requires y < height
    ensures width * y + width == width * (y + 1) <= width * height
  {
  }

  /** The matrix of the first `y + 1` rows is that of the first `y` and one more row. */
  lemma RowsSnoc(cells: seq<BeadColor>, width: nat, y: nat)
    requires width * (y + 1) <= |cells|
    ensures width * y + width == width * (y + 1)
    ensures Rows(cells[..width * (y + 1)], width, y + 1)
      == Rows(cells[..width * y], width, y) + [cells[width * y..width * (y + 1)]]
  {
    var next := cells[..width * (y + 1)];
    assert width * y + width == width * (y + 1);
    assert next[..width * y] == cells[..width * y];
    assert next[width * y..] == cells[width * y..width * (y + 1)];
  }

  /** One pass of the outer loop of step 8 extends the matrix by a row and the tally by
      that row's cells. */
  lemma RowStep(resultPoints: seq<Rgb>, target: seq<BeadColor>, dist: Distance, width: nat, y: nat,
                row: seq<BeadColor>)
    requires width * (y + 1) <= |resultPoints| && (|resultPoints| == 0 || |target| > 0)
    requires |row| == width
    requires forall i :: 0 <= i < width ==> row[i] == Nearest(resultPoints[width * y + i], target, dist)
    ensures var cells := NearestColors(resultPoints, target, dist);
      && width * y + width == width * (y + 1)
      && Rows(cells[..width * (y + 1)], width, y + 1) == Rows(cells[..width * y], width, y) + [row]
      && Tally(cells[..width * (y + 1)]) == TallyInto(Tally(cells[..width * y]), row)
  {
    var cells := NearestColors(resultPoints, target, dist);
    var start := width * y;
    RowsSnoc(cells, width, y);
    assert row == cells[start..start + width];
    assert cells[..start + width] == cells[..start] + row;
    TallyIntoAppend(map[], cells[..start], row);
  }

  datatype Tables = Tables(matrix: seq<seq<BeadColor>>, colorStats: map<string, nat>)

  lemma SnocPointwise(row: seq<BeadColor>, c: BeadColor, resultPoints: seq<Rgb>, start: nat,
                      target: seq<BeadColor>, dist: Distance)
    requires start + |row| < |resultPoints| && |target| > 0
    requires forall i :: 0 <= i < |row| ==> row[i] == Nearest(resultPoints[start + i], target, dist)
    requires c == Nearest(resultPoints[start + |row|], target, dist)
    ensures forall i :: 0 <= i < |row| + 1 ==> (row + [c])[i] == Nearest(resultPoints[start + i], target, dist)
  {
    forall i | 0 <= i < |row| + 1 ensures (row + [c])[i] == Nearest(resultPoints[start + i], target, dist) {
      if i < |row| {
        assert (row + [c])[i] == row[i];
      } else {
        assert (row + [c])[i] == c;
      }
    }
  }

  /** The inner loop of step 8, for the row whose first point is `start`: each point's
      nearest target colour is appended to the row and tallied into `stats`. */
  method FillRow(resultPoints: seq<Rgb>, start: nat, width: nat, target: seq<BeadColor>, dist: Distance,
                 stats: map<string, nat>)
    returns (row: seq<BeadColor>, stats': map<string, nat>)
    requires start + width <= |resultPoints| && (width == 0 || |target| > 0)
    ensures |row| == width
    ensures forall i :: 0 <= i < width ==> row[i] == Nearest(resultPoints[start + i], target, dist)
    ensures stats' == TallyInto(stats, row)
  {
    row := [];
    stats' := stats;
    for x := 0 to width
      invariant |row| == x
      invariant forall i :: 0 <= i < x ==> row[i] == Nearest(resultPoints[start + i], target, dist)
      invariant stats' == TallyInto(stats, row)
    {
      var beadColor := FindNearestColor(resultPoints[start + x], target, dist);
      var c := beadColor.value;
      TallyIntoSnoc(stats, row, c);
      SnocPointwise(row, c, resultPoints, start, target, dist);
      row := row + [c];
      stats' := stats'[c.uid := GetOrDefault(stats', c.uid, 0) + 1];
    }
  }

  /** Step 8: the nested loops. `None` when there is a cell to colour but the target
      palette is empty (the source throws there). `resultPoints` has the `width*height`
      points image-q returns for the image. */
  method BuildMatrix(resultPoints: seq<Rgb>, width: nat, height: nat, target: seq<BeadColor>, dist: Distance)
    returns (res: Option<Tables>)
    requires |resultPoints| == width * height
    ensures res.None? <==> (|resultPoints| > 0 && |target| == 0)
    ensures res.Some? ==>
      var cells := NearestColors(resultPoints, target, dist);
      res.value == Tables(Rows(cells, width, height), Tally(cells))
  {
    if |resultPoints| > 0 && |target| == 0 {
      var nearest := FindNearestColor(resultPoints[0], target, dist);
      assert nearest.None?;
      return None;
    }
    ghost var cells := NearestColors(resultPoints, target, dist);
    var matrix: seq<seq<BeadColor>> := [];
    var colorStats: map<string, nat> := map[];
    var start := 0;
    for y := 0 to height
      invariant start == width * y && start <= |cells|
      invariant matrix == Rows(cells[..start], width, y)
      invariant colorStats == Tally(cells[..start])
    {
      MulStep(width, y, height);
      var row;
      row, colorStats := FillRow(resultPoints, start, width, target, dist, colorStats);
      RowStep(resultPoints, target, dist, width, y, row);
      matrix := matrix + [row];
      start := start + width;
    }
    assert cells[..start] == cells;
    return Some(Tables(matrix, colorStats));
  }

  // ---------------------------------------------------------------------------
  // Step 9: usedColors

  /** `colorStats.get(uid) || 0`. */
  function CountOf(stats: map<string, nat>, c: BeadColor): nat {
    GetOrDefault(stats, c.uid, 0)
  }

  /** `targetPalette.filter((c) => colorStats.has(c.uid))`. */
  function WithCount(target: seq<BeadColor>, stats: map<string, nat>): seq<BeadColor>
    decreases |target|
  {
    if |target| == 0 then []
    else
      WithCount(target[..|target| - 1], stats)
        + (if target[|target| - 1].uid in stats then [target[|target| - 1]] else [])
  }

  /** The comparator `(a, b) => count(b) - count(a)` as a sort key. */
  function CountKey(stats: map<string, nat>): BeadColor -> StableSort.SortKey {
    c => StableSort.SortKey(CountOf(stats, c), 0)
  }

  /** `usedColors` after the filter and the in-place stable sort by descending count. */
  function UsedColors(target: seq<BeadColor>, stats: map<string, nat>): seq<BeadColor> {
    StableSort.InsertionSort(WithCount(target, stats), CountKey(stats))
  }

  /** Step 9 on an array holding the filtered list. */
  method SortUsedColors(target: seq<BeadColor>, stats: map<string, nat>) returns (usedColors: seq<BeadColor>)
    ensures usedColors == UsedColors(target, stats)
  {
    var a := new BeadColor[|WithCount(target, stats)|](i requires 0 <= i < |WithCount(target, stats)| => WithCount(target, stats)[i]);
    assert a[..] == WithCount(target, stats);
    StableSort.SortDescending(a, CountKey(stats));
    usedColors := a[..];
  }

  lemma {:induction false} WithCountMembers(target: seq<BeadColor>, stats: map<string, nat>)
    ensures forall c :: c in WithCount(target, stats) <==> c in target && c.uid in stats
    ensures multiset(WithCount(target, stats)) <= multiset(target)
    decreases |target|
  {
    if |target| > 0 {
      var init := target[..|target| - 1];
      WithCountMembers(init, stats);
      assert target == init + [target[|target| - 1]];
    }
  }

  /** `usedColors` holds exactly the target colours that have a count, each once when the
      target has distinct uids, in non-increasing order of count, and colours with equal
      counts in their target-palette order. */
  lemma UsedColorsProperties(target: seq<BeadColor>, stats: map<string, nat>, k: StableSort.SortKey)
    ensures forall c :: c in UsedColors(target, stats) <==> c in target && c.uid in stats
    ensures multiset(UsedColors(target, stats)) <= multiset(target)
    ensures StableSort.SortedDesc(UsedColors(target, stats), CountKey(stats))
    ensures forall i, j :: 0 <= i < j < |UsedColors(target, stats)| ==>
      CountOf(stats, UsedColors(target, stats)[i]) >= CountOf(stats, UsedColors(target, stats)[j])
    ensures StableSort.WithKey(UsedColors(target, stats), CountKey(stats), k)
      == StableSort.WithKey(WithCount(target, stats), CountKey(stats), k)
  {
    var f := WithCount(target, stats);
    WithCountMembers(target, stats);
    StableSort.SortIsPermutation(f, CountKey(stats));
    StableSort.SortIsSorted(f, CountKey(stats));
    StableSort.SortIsStable(f, CountKey(stats), k);
    var u := UsedColors(target, stats);
    forall c ensures c in u <==> c in f {
      assert c in u <==> c in multiset(u);
      assert c in f <==> c in multiset(f);
    }
    forall i, j | 0 <= i < j < |u| ensures CountOf(stats, u[i]) >= CountOf(stats, u[j]) {
      assert !StableSort.Below(CountKey(stats)(u[i]), CountKey(stats)(u[j]));
    }
  }

  // ---------------------------------------------------------------------------
  // Counting: the stats add up to the number of beads

  /** Sum of the counts of the colours in `s`. */
  function SumCounts(s: seq<BeadColor>, stats: map<string, nat>): nat
    decreases |s|
  {
    if |s| == 0 then 0 else SumCounts(s[..|s| - 1], stats) + CountOf(stats, s[|s| - 1])
  }

  lemma {:induction false} SumCountsAppend(a: seq<BeadColor>, b: seq<BeadColor>, stats: map<string, nat>)
    ensures SumCounts(a + b, stats) == SumCounts(a, stats) + SumCounts(b, stats)
    decreases |b|
  {
    if |b| == 0 {
      assert a + b == a;
    } else {
      assert (a + b)[..|a + b| - 1] == a + b[..|b| - 1];
      SumCountsAppend(a, b[..|b| - 1], stats);
    }
  }

  lemma {:induction false} SumCountsInsert(x: BeadColor, s: seq<BeadColor>, key: BeadColor -> StableSort.SortKey, stats: map<string, nat>)
    ensures SumCounts(StableSort.Insert(x, s, key), stats) == SumCounts(s, stats) + CountOf(stats, x)
    decreases |s|
  {
    if |s| > 0 && StableSort.Below(key(s[|s| - 1]), key(x)) {
      SumCountsInsert(x, s[..|s| - 1], key, stats);
    }
  }

  lemma {:induction false} SumCountsSort(s: seq<BeadColor>, key: BeadColor -> StableSort.SortKey, stats: map<string, nat>)
    ensures SumCounts(StableSort.InsertionSort(s, key), stats) == SumCounts(s, stats)
    decreases |s|
  {
    if |s| > 0 {
      SumCountsSort(s[..|s| - 1], key, stats);
      SumCountsInsert(s[|s| - 1], StableSort.InsertionSort(s[..|s| - 1], key), key, stats);
    }
  }

  lemma {:induction false} SumCountsWithCount(t: seq<BeadColor>, stats: map<string, nat>)
    ensures SumCounts(WithCount(t, stats), stats) == SumCounts(t, stats)
    decreases |t|
  {
    if |t| > 0 {
      var init := t[..|t| - 1];
      SumCountsWithCount(init, stats);
      SumCountsAppend(WithCount(init, stats), if t[|t| - 1].uid in stats then [t[|t| - 1]] else [], stats);
    }
  }

  /** Raising one uid's count by one raises the sum by the number of colours carrying it. */
  lemma {:induction false} SumCountsBump(t: seq<BeadColor>, stats: map<string, nat>, u: string)
    ensures SumCounts(t, stats[u := GetOrDefault(stats, u, 0) + 1]) == SumCounts(t, stats) + CountUid(t, u)
    decreases |t|
  {
    if |t| > 0 {
      SumCountsBump(t[..|t| - 1], stats, u);
    }
  }

  lemma {:induction false} CountUidDistinct(t: seq<BeadColor>, u: string)
    requires DistinctUids(t) && u in Uids(t)
    ensures CountUid(t, u) == 1
    decreases |t|
  {
    var init := t[..|t| - 1];
    if t[|t| - 1].uid == u {
      CountUidAbsent(init, u);
    } else {
      assert u in Uids(init);
      CountUidDistinct(init, u);
    }
  }

  lemma {:induction false} CountUidAbsent(t: seq<BeadColor>, u: string)
    requires u !in Uids(t)
    ensures CountUid(t, u) == 0
    decreases |t|
  {
    if |t| > 0 {
      assert t[|t| - 1] in t;
      assert Uids(t[..|t| - 1]) <= Uids(t);
      CountUidAbsent(t[..|t| - 1], u);
    }
  }

  /** Tallying cells that all come from a uid-distinct palette: the palette's counts
      add up to the number of cells. */
  lemma {:induction false} TallySum(cells: seq<BeadColor>, t: seq<BeadColor>)
    requires DistinctUids(t)
    requires forall c :: c in cells ==> c.uid in Uids(t)
    ensures SumCounts(t, Tally(cells)) == |cells|
    decreases |cells|
  {
    if |cells| == 0 {
      SumCountsEmpty(t);
    } else {
      var init := cells[..|cells| - 1];
      TallySum(init, t);
      var u := cells[|cells| - 1].uid;
      SumCountsBump(t, Tally(init), u);
      CountUidDistinct(t, u);
    }
  }

  lemma {:induction false} SumCountsEmpty(t: seq<BeadColor>)
    ensures SumCounts(t, map[]) == 0
    decreases |t|
  {
    if |t| > 0 {
      SumCountsEmpty(t[..|t| - 1]);
    }
  }

  // ---------------------------------------------------------------------------
  // Steps 3 to 9 together

  datatype QuantizeResult = QuantizeResult(
    matrix: seq<seq<BeadColor>>,
    colorStats: map<string, nat>,
    usedColors: seq<BeadColor>,
    totalBeads: nat,
    width: nat,
    height: nat)

  /** The result of steps 5 to 9 for a target palette that exists. */
  function ResultOf(resultPoints: seq<Rgb>, width: nat, height: nat, target: seq<BeadColor>, dist: Distance): QuantizeResult
    requires |resultPoints| == width * height && (|resultPoints| == 0 || |target| > 0)
  {
    var cells := NearestColors(resultPoints, target, dist);
    var stats := Tally(cells);
    QuantizeResult(Rows(cells, width, height), stats, UsedColors(target, stats), width * height, width, height)
  }

  /** Steps 5, 8 and 9 of `quantizeImage`, given the working palette, the palette
      points image-q built and the points it mapped the image to. `None` where the
      source throws: a point to match against an empty palette. */
  method QuantizeSteps(basePalette: seq<BeadColor>, internalPoints: seq<Rgb>, resultPoints: seq<Rgb>,
                       width: nat, height: nat, dist: Distance)
    returns (res: Option<QuantizeResult>)
    requires |resultPoints| == width * height
    ensures res.None? <==>
      (|basePalette| == 0 && |internalPoints| > 0)
      || (|resultPoints| > 0 && (|basePalette| > 0 || |internalPoints| == 0)
          && DedupByUid(NearestColors(internalPoints, basePalette, dist)) == [])
    ensures res.Some? ==>
      && (|basePalette| > 0 || |internalPoints| == 0)
      && var target := DedupByUid(NearestColors(internalPoints, basePalette, dist));
      && (|resultPoints| == 0 || |target| > 0)
      && res.value == ResultOf(resultPoints, width, height, target, dist)
  {
    var target := MapPaletteToBeads(internalPoints, basePalette, dist);
    if target.None? {
      return None;
    }
    var tables := BuildMatrix(resultPoints, width, height, target.value, dist);
    if tables.None? {
      return None;
    }
    var usedColors := SortUsedColors(target.value, tables.value.colorStats);
    res := Some(QuantizeResult(tables.value.matrix, tables.value.colorStats, usedColors, width * height, width, height));
  }

  /** `quantizeImage` from the working palette on: reads the registry for the selected
      brand (special colours dropped unless `useFullPalette`), clamps the colour budget
      that is handed to image-q, and runs steps 5 to 9 on the library's points. */
  method QuantizeImage(registry: Registry, selectedBrand: BrandId, useFullPalette: bool, maxColors: int,
                       internalPoints: seq<Rgb>, resultPoints: seq<Rgb>, width: nat, height: nat, dist: Distance)
    returns (effectiveMaxColors: nat, res: Option<QuantizeResult>)
    requires |resultPoints| == width * height
    ensures var base := MergedPalette(registry.table, [selectedBrand], !useFullPalette);
      && effectiveMaxColors == EffectiveMaxColors(maxColors, |base|)
      && (res.None? <==>
        || (|base| == 0 && |internalPoints| > 0)
        || (&& |resultPoints| > 0 && (|base| > 0 || |internalPoints| == 0)
            && DedupByUid(NearestColors(internalPoints, base, dist)) == []))
      && (res.Some? ==>
        && (|base| > 0 || |internalPoints| == 0)
        && var target := DedupByUid(NearestColors(internalPoints, base, dist));
        && (|resultPoints| == 0 || |target| > 0)
        && res.value == ResultOf(resultPoints, width, height, target, dist))
  {
    var basePalette := registry.GetMergedPalette([selectedBrand], !useFullPalette);
    effectiveMaxColors := EffectiveMaxColors(maxColors, |basePalette|);
    res := QuantizeSteps(basePalette, internalPoints, resultPoints, width, height, dist);
  }

  /** A colour of a uid-distinct target palette that has a count is listed in
      `usedColors` exactly once. */
  lemma UsedOnce(target: seq<BeadColor>, stats: map<string, nat>, c: BeadColor)
    requires DistinctUids(target) && c in target && c.uid in stats
    ensures c in UsedColors(target, stats) && multiset(UsedColors(target, stats))[c] == 1
  {
    WithCountMembers(target, stats);
    StableSort.SortIsPermutation(WithCount(target, stats), CountKey(stats));
    DistinctCountOnce(target, c);
    assert c in WithCount(target, stats);
    assert c in multiset(UsedColors(target, stats));
  }

  /** Cell `[y][x]` of `r` exists, is the nearest target colour of result point
      `width*y + x` (so a target colour), and is listed in `usedColors` exactly once. */
  ghost predicate CellFacts(r: QuantizeResult, resultPoints: seq<Rgb>, target: seq<BeadColor>, width: nat,
                            dist: Distance, y: nat, x: nat) {
    && |target| > 0 && width * y + x < |resultPoints|
    && y < |r.matrix| && x < |r.matrix[y]|
    && r.matrix[y][x] == Nearest(resultPoints[width * y + x], target, dist)
    && r.matrix[y][x] in target
    && r.matrix[y][x] in r.usedColors && multiset(r.usedColors)[r.matrix[y][x]] == 1
  }

  lemma CellInUsedColors(target: seq<BeadColor>, resultPoints: seq<Rgb>, width: nat, height: nat, dist: Distance,
                         y: nat, x: nat)
    requires |resultPoints| == width * height && |target| > 0 && DistinctUids(target)
    requires y < height && x < width
    ensures CellFacts(ResultOf(resultPoints, width, height, target, dist), resultPoints, target, width, dist, y, x)
  {
    var cells := NearestColors(resultPoints, target, dist);
    RowsCell(cells, width, height, y, x);
    var c := cells[width * y + x];
    TallyCounts(cells);
    assert c in cells;
    assert c in target;
    UsedOnce(target, Tally(cells), c);
  }

  /** The matrix has `height` rows of `width` cells, and every cell is the nearest
      target colour of its result point and appears exactly once in `usedColors`. */
  lemma ResultMatrix(target: seq<BeadColor>, resultPoints: seq<Rgb>, width: nat, height: nat, dist: Distance)
    requires |resultPoints| == width * height && |target| > 0 && DistinctUids(target)
    ensures |ResultOf(resultPoints, width, height, target, dist).matrix| == height
    ensures forall y :: 0 <= y < height ==> |ResultOf(resultPoints, width, height, target, dist).matrix[y]| == width
    ensures forall y, x :: 0 <= y < height && 0 <= x < width ==>
      CellFacts(ResultOf(resultPoints, width, height, target, dist), resultPoints, target, width, dist, y, x)
  {
    forall y, x | 0 <= y < height && 0 <= x < width
      ensures CellFacts(ResultOf(resultPoints, width, height, target, dist), resultPoints, target, width, dist, y, x)
    {
      CellInUsedColors(target, resultPoints, width, height, dist, y, x);
    }
  }

  /** Each `colorStats` entry counts the cells of its uid, the keys are exactly the
      cells' uids, and the counts of `usedColors` add up to `totalBeads`, which is
      `width*height`. */
  lemma ResultCounts(target: seq<BeadColor>, resultPoints: seq<Rgb>, width: nat, height: nat, dist: Distance)
    requires |resultPoints| == width * height && (|resultPoints| == 0 || |target| > 0) && DistinctUids(target)
    ensures var cells := NearestColors(resultPoints, target, dist);
      var r := ResultOf(resultPoints, width, height, target, dist);
      && r.colorStats.Keys == Uids(cells)
      && (forall u :: u in r.colorStats ==> r.colorStats[u] == CountUid(cells, u))
      && SumCounts(r.usedColors, r.colorStats) == r.totalBeads == width * height
  {
    var cells := NearestColors(resultPoints, target, dist);
    var stats := Tally(cells);
    TallyCounts(cells);
    forall c | c in cells ensures c.uid in Uids(target) {
      var i :| 0 <= i < |cells| && cells[i] == c;
    }
    TallySum(cells, target);
    SumCountsWithCount(target, stats);
    SumCountsSort(WithCount(target, stats), CountKey(stats), stats);
  }

  lemma {:induction false} DistinctCountOnce(t: seq<BeadColor>, c: BeadColor)
    requires DistinctUids(t) && c in t
    ensures multiset(t)[c] == 1
    decreases |t|
  {
    var init, last := t[..|t| - 1], t[|t| - 1];
    assert t == init + [last];
    if last == c {
      assert forall j :: 0 <= j < |init| ==> init[j].uid != t[|t| - 1].uid;
    } else {
      DistinctCountOnce(init, c);
    }
  }
}
