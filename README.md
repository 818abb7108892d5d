# Bead pattern generator: a Dafny model of its core

The bead pattern generator turns a photo into a pattern for fuse beads (Artkal,
Perler, Hama). It has two halves, and this project models the program's own logic
in both.

**The colour pipeline.**
- A registry maps each brand to its catalogue of colours. Its merge function
  concatenates the selected brands' catalogues and can drop the "special"
  (fluorescent, glow, translucent) beads.
- `quantizeImage` does the following:
  - optionally turns the image grayscale or black/white;
  - clamps the colour budget;
  - maps the palette points chosen by the image-q library onto catalogue colours,
    keeping the first colour of each uid;
  - colours every cell with the nearest target colour, counting cells per uid;
  - lists the used colours by descending count.
- The grid renderer's non-drawing logic is modelled:
  - the text-colour test and label shortening;
  - multi-brand detection;
  - option defaults and canvas geometry;
  - the plain-text materials list.

**The key-value-store routes.**
- Each device is identified by a fingerprint: a 32-bit string hash of IP and user
  agent, printed in base 36. The fingerprint keys a free-use counter.
- `/api/check-usage` reports the counter, or spends the free use or accepts a
  signed usage token.
- `/api/redeem` turns a stored redemption code from `unused` into `used:<time>`.
- `/api/admin/codes` lists the codes: used ones first, latest first, then unused
  ones in scan order.
- `/api/admin/generate` writes a batch of random eight-character codes.

**How the model is built.**
- Modules follow the source files:
  - `PaletteRegistry` is lib/palette-registry.ts;
  - `Quantize` is lib/quantize.ts;
  - `GridRenderer` is lib/grid-renderer.ts;
  - `Usage` is lib/usage.ts;
  - `CheckUsage`, `Redeem`, `AdminCodes` and `AdminGenerate` are the four route
    files;
  - `CodeStore` holds the `code:` keys and values that the last three share.
- `Text` gives the JavaScript string built-ins their meaning: `trim`, `split`,
  `join`, `padEnd`, `replace`, `toString(radix)` and `parseInt` (which in
  radix 16 skips a `0x` or `0X` after the sign).
- `StableSort` is the stable in-place `Array.prototype.sort` with a descending
  comparator, which both sorts of the program use.
- Shared, mutable state is a class:
  - the registry (`Registry`, with the Map's key order);
  - the counter store (`CounterStore`);
  - the code store (`Store`).
- Loops are `method`s proved against specification functions. Pure code is
  functions and lemmas.
- Outside effects are parameters:
  - image-q's palette points and result points;
  - the colour distance;
  - JWT signing and verification;
  - `Date.now()`;
  - whether the store answers.
- `Math.random` is a nondeterministic choice.

**Behaviour modelled as the code is written.**
- `/api/admin/generate` compares `password !== process.env.ADMIN_PASSWORD`. So when
  the variable is unset, a body without `password` is authorised.
  `AdminGenerate.Authorized` states this.
- `/api/admin/codes` compares a header (`null` when missing) with the variable
  (`undefined` when unset). So an unset variable locks everyone out.
- components/MaterialList.tsx:34 looks colour counts up by `code`, while
  `colorStats` is keyed by `uid` (lib/quantize.ts:202). The UI component is not
  part of this model.
- app/admin/page.tsx sends the administrator password of the generate call in a
  header, while the generate route reads it from the JSON body. The UI component is
  not part of this model.

## Model

| member | source | states |
|---|---|---|
| PaletteRegistry.BrandName | lib/palette-registry.ts:6 | brand identifiers are non-empty and contain no `:`, so they can prefix a uid |
| PaletteRegistry.Registry.RegisterPalette | lib/palette-registry.ts:24-26 | the brand's list is stored or overwritten, no other brand changes, and a re-registered brand keeps its place in the key order |
| PaletteRegistry.Registry.GetPalette | lib/palette-registry.ts:29-31 | the registered list for a registered brand, the empty list otherwise |
| PaletteRegistry.Registry.GetRegisteredBrands | lib/palette-registry.ts:34-36 | every registered brand exactly once, and nothing else |
| PaletteRegistry.Registry.GetMergedPalette | lib/palette-registry.ts:43-55 | the push loop computes the catalogues of the listed, registered brands concatenated in list order, filtered to non-special colours when `solidOnly` |
| PaletteRegistry.RegisterThenGet | lib/palette-registry.ts:24-31 | on one registry object, registering then reading gives the registered list; the later of two registrations wins without a second key in `getRegisteredBrands`; other brands read as before |
| PaletteRegistry.ConcatenationMembers | lib/palette-registry.ts:44-50 | a colour is in the unfiltered merge exactly when some listed, registered brand's catalogue holds it |
| PaletteRegistry.BrandSlice | lib/palette-registry.ts:45-50 | each registered brand's catalogue appears whole and in order, right after those of the brands listed before it |
| PaletteRegistry.UnregisteredSkipped | lib/palette-registry.ts:46-49 | unregistered brands contribute nothing: the merge equals the merge of the registered brands only, and is empty when none is registered |
| PaletteRegistry.NonSpecialAppend | lib/palette-registry.ts:51-53 | the special-colour filter distributes over concatenation, so each brand's order survives the filter |
| PaletteRegistry.NonSpecialCounts | lib/palette-registry.ts:51-53 | the filter keeps every non-special colour with its multiplicity, drops every special one, and never lengthens the list |
| PaletteRegistry.MergedFromSources | lib/palette-registry.ts:43-55 | every merged colour comes from a listed, registered brand, and is non-special when `solidOnly` |
| PaletteRegistry.Substring | lib/palette-registry.ts:63-65 | `substring` clamps its indices, so the slice is at most `b - a` long |
| PaletteRegistry.Hex2Rgb | lib/palette-registry.ts:60-67 | on any string, a channel that parses lies in [-15, 255]: its slice holds two hex digits at most, or a sign and one |
| PaletteRegistry.PairParses | lib/palette-registry.ts:63 | `parseInt` of two hex digits in base 16 is their big-endian value |
| PaletteRegistry.Hex2RgbOfHexColor | lib/palette-registry.ts:60-67 | on `#` plus six hex digits, each channel is the value of its digit pair |
| PaletteRegistry.Hex2RgbRoundTrip | lib/palette-registry.ts:60-67 | writing three bytes as `#RRGGBB` and parsing them back with `hex2rgb` gives the bytes |
| PaletteRegistry.UidInjective | lib/palette-registry.ts:83 | `${brand}:${code}` determines both the brand and the code, so uids are globally unique |
| PaletteRegistry.MakeBeadColor | lib/palette-registry.ts:72-91 | the record carries the given brand, code, name and hex; the uid is `brand:code`; the channels are `hex2rgb`'s bytes in [0, 255]; `special` defaults to false |
| Quantize.GrayOf | lib/quantize.ts:54 | the gray level is the luma rounded to the nearest integer, halves rounded up |
| Quantize.BwOf | lib/quantize.ts:69-70 | the level is 0 or 255, and 255 exactly when the luma is strictly above 128 |
| Quantize.ToGrayscale | lib/quantize.ts:51-61 | the loop fills a fresh buffer of the same length with the grayscale of every byte |
| Quantize.ToBW | lib/quantize.ts:66-77 | the loop fills a fresh buffer of the same length with the black/white conversion of every byte |
| Quantize.GrayscalePixel | lib/quantize.ts:53-59 | after grayscale, each pixel has R = G = B = its rounded luma and keeps its alpha |
| Quantize.BwPixel | lib/quantize.ts:68-75 | after black/white, each pixel has R = G = B in {0, 255}, 255 exactly when the luma exceeds 128, and keeps its alpha |
| Quantize.NearestIsFirstArgMin | lib/quantize.ts:119-129 | the scan's choice is a closest palette entry, and the earliest one among equally close entries |
| Quantize.FirstArgMinUnique | lib/quantize.ts:125-128 | there is only one first closest entry, so the strict `<` pins the result down |
| Quantize.FindNearestColor | lib/quantize.ts:114-131 | the loop returns the first closest entry, and nothing (`undefined`) exactly when the palette is empty |
| Quantize.EffectiveMaxColors | lib/quantize.ts:154 | the budget never exceeds the palette size; a positive `maxColors` is the minimum of the two; otherwise the palette size |
| Quantize.DedupBasics | lib/quantize.ts:167-175 | the target palette has no repeated uid, covers every uid offered, is drawn from the offered colours and is never longer |
| Quantize.DedupKeepsFirst | lib/quantize.ts:171-173 | a `set` for a uid already present is skipped, so each kept colour is the first one offered with its uid |
| Quantize.DedupInFirstOrder | lib/quantize.ts:175 | the target palette lists the uids in order of their first occurrence |
| Quantize.MapPaletteToBeads | lib/quantize.ts:166-175 | the loop computes the uid-deduplicated nearest base colours of the palette points, and fails exactly when a point meets an empty base palette |
| Quantize.TargetPaletteProperties | lib/quantize.ts:166-175 | the target palette is drawn from the base palette, has distinct uids and has at most one colour per palette point |
| Quantize.TallyCounts | lib/quantize.ts:202 | the `colorStats` keys are exactly the cells' uids, and each entry counts the cells with that uid |
| Quantize.RowsCell | lib/quantize.ts:195-205 | matrix cell `[y][x]` is flat cell `y*width + x` |
| Quantize.FillRow | lib/quantize.ts:196-203 | the inner loop builds one row of nearest target colours, `width` long, and adds it to the tally |
| Quantize.BuildMatrix | lib/quantize.ts:191-205 | the nested loops give `height` rows of `width` nearest colours and their tally, and fail exactly when a cell meets an empty target palette |
| Quantize.WithCountMembers | lib/quantize.ts:208 | the filter keeps exactly the target colours whose uid has a count, without adding any |
| Quantize.SortUsedColors | lib/quantize.ts:208-209 | filtering then sorting in place yields the stable descending-count order of the filtered colours |
| Quantize.UsedColorsProperties | lib/quantize.ts:208-209 | `usedColors` holds exactly the target colours with a count, in non-increasing count order, with equal counts in target-palette order |
| Quantize.QuantizeSteps | lib/quantize.ts:166-218 | steps 5, 8 and 9 give the result defined by the target palette, and fail exactly where the source reads `.uid` of `undefined` |
| Quantize.QuantizeImage | lib/quantize.ts:153-218 | the working palette is the selected brand's merged catalogue and the budget is clamped; the result is absent exactly when that catalogue is empty while there are points, or when pixels exist but the target palette is empty; otherwise it is that of steps 5 to 9 |
| Quantize.UsedOnce | lib/quantize.ts:208 | a target colour with a count appears in `usedColors` exactly once |
| Quantize.CellInUsedColors | lib/quantize.ts:195-209 | every cell is its point's nearest target colour, belongs to the target palette, and appears exactly once in `usedColors` |
| Quantize.ResultMatrix | lib/quantize.ts:191-205 | the matrix is `height` by `width`, and every cell has the facts of `CellInUsedColors` |
| Quantize.ResultCounts | lib/quantize.ts:202-215 | `colorStats` counts the cells per uid, its keys are the cells' uids, and `usedColors`' counts add up to `totalBeads = width*height` |
| GridRenderer.IsLightColor | lib/grid-renderer.ts:27-29 | the colour counts as light exactly when its exact luma is above 140 |
| GridRenderer.StripLeadingLetters | lib/grid-renderer.ts:37 | the longest leading run of ASCII letters is removed and the rest is kept |
| GridRenderer.GetColorLabel | lib/grid-renderer.ts:35-40 | the full code with several brands, the code without its letter prefix otherwise |
| GridRenderer.MultiBrandIff | lib/grid-renderer.ts:67-70 | the brand set has more than one element exactly when two used colours have different brands |
| GridRenderer.IsMultiBrand | lib/grid-renderer.ts:67-70 | multi-brand holds exactly when two used colours differ in brand |
| GridRenderer.ResolveOptions | lib/grid-renderer.ts:79 | a given option wins, a missing one takes its `DEFAULT_OPTIONS` value (lines 18-25) |
| GridRenderer.GridLayout | lib/grid-renderer.ts:87-90 | the offsets are the header size when numbers are shown and 0 otherwise; the canvas is the offset plus the cells |
| GridRenderer.CellsInsideCanvas | lib/grid-renderer.ts:117-124 | every cell lies inside the canvas and below and right of the header band, and neighbours are one cell size apart |
| GridRenderer.ColumnHeader | lib/grid-renderer.ts:185-189 | the header starts with the brand column exactly in the multi-brand case |
| GridRenderer.BodyLines | lib/grid-renderer.ts:192-204 | one line per used colour, in order, with its count (0 when missing) |
| GridRenderer.SizeLineReadBack | lib/grid-renderer.ts:180 | the width and the height printed in the size line both read back with `parseInt` |
| GridRenderer.TotalLineReadBack | lib/grid-renderer.ts:181 | the bead total printed in its line reads back with `parseInt` |
| GridRenderer.ColorsLineReadBack | lib/grid-renderer.ts:182 | the number of colours printed in its line reads back with `parseInt` |
| GridRenderer.PushBodyLines | lib/grid-renderer.ts:192-204 | the loop appends exactly the body lines, in order |
| GridRenderer.GenerateMaterialText | lib/grid-renderer.ts:175-208 | the text is the head lines, the body lines and the footer, joined with newlines |
| GridRenderer.MaterialLinesShape | lib/grid-renderer.ts:176-206 | the list has `|usedColors| + 8` lines: seven head lines, line `7 + k` for used colour `k`, then the footer |
| GridRenderer.BodyLineNoNewline | lib/grid-renderer.ts:194-203 | a colour line has no newline when the code and name have none |
| GridRenderer.MaterialLinesNoNewline | lib/grid-renderer.ts:179-206 | no line of the list contains a newline when no code or name does |
| GridRenderer.MaterialTextLines | lib/grid-renderer.ts:207 | splitting the text at newlines gives back exactly the lines joined |
| GridRenderer.BodyLineColumns | lib/grid-renderer.ts:194-203 | fields that fit sit at 10-character column offsets, followed by a count that reads back |
| Usage.ToInt32 | lib/usage.ts:26-27 | the 32-bit value is in [-2^31, 2^31) and congruent to its argument modulo 2^32 |
| Usage.HashStep | lib/usage.ts:26-27 | shift-subtract-add-truncate is the 32-bit reduction of `31*hash + char`, whatever representative the previous hash is |
| Usage.GenerateFingerprint | lib/usage.ts:20-30 | the loop computes `fp_` and the base-36 absolute value of the 32-bit polynomial hash of `ip|userAgent` |
| Usage.Base36Lower | lib/usage.ts:29 | `toString(36)` prints only digits and lower-case letters |
| Usage.FingerprintShape | lib/usage.ts:29 | a fingerprint is `fp_` and at least one base-36 digit, reading back as the hash's absolute value, at most 2^31 |
| Usage.UsageKey | lib/usage.ts:41 | the key is `usage:` followed by the fingerprint, which it determines |
| Usage.CheckFreeUsage | lib/usage.ts:35-49 | a missing counter counts 0; allowed exactly while fewer than `FREE_USES` are used; `remaining` equals `FREE_USES - used`, with 0 as its floor |
| Usage.Incremented | lib/usage.ts:57 | `incr` raises the key's counter (0 when missing) by one and leaves every other key as it was |
| Usage.CounterStore.ConsumeFreeUsage | lib/usage.ts:54-58 | the store's counters become the incremented ones, and the new value is returned |
| Usage.ConsumedIsDenied | lib/usage.ts:45-57 | after consuming, the device is no longer allowed, while other devices' answers do not change |
| Text.TrimIsSlice | app/api/check-usage/route.ts:10 | `trim` returns a slice of its input with only whitespace around it |
| Text.DecimalRoundTrip | lib/grid-renderer.ts:180-182 | `parseInt` in base 10 of a printed non-negative integer, followed by a tail that does not start with a digit, gives the integer |
| Text.ParseIntPrefixBound | lib/palette-registry.ts:63-65 | whatever the string, a parsed value's magnitude is below the radix to the power of the characters left for digits (all of them, or all but the sign) |
| Text.SignThenDigits | app/api/admin/codes/route.ts:48 | a leading `-` negates what follows it and a leading `+` keeps it |
| Text.HexPrefixUnsigned | lib/palette-registry.ts:63-65 | after the sign, radix 16 skips `0x` or `0X` and reads the digits right after it, so nothing else may come in between; with none there the result is `NaN` |
| Text.HexPrefixSkipped | lib/palette-registry.ts:63-65 | in radix 16 a leading `0x` or `0X` is skipped and the digits right after it are read; with none there the result is `NaN` |
| Text.ParseDigits | app/api/admin/codes/route.ts:48 | a string that starts with a run of digits (in radix 16, not `0x` or `0X`) parses to the value of exactly that run |
| Text.SplitJoin | lib/grid-renderer.ts:207 | joining separator-free lines and splitting again gives the lines |
| Text.RadixRoundTrip | lib/usage.ts:29 | the digits `toString(radix)` prints read back as the number |
| CheckUsage.ForwardedIp | app/api/check-usage/route.ts:10 | the first `x-forwarded-for` entry, trimmed: it holds no comma and no surrounding whitespace |
| CheckUsage.GetClientInfo | app/api/check-usage/route.ts:9-15 | the first non-empty of the forwarded IP, `x-real-ip` and `0.0.0.0`; the user agent or `unknown`; neither is empty |
| CheckUsage.Get | app/api/check-usage/route.ts:17-27 | the device's usage report, or the one-free-use fallback when the store fails; `allowed` exactly when uses remain |
| CheckUsage.Post | app/api/check-usage/route.ts:29-58 | a truthy token decides alone (valid 200, invalid 401, counters untouched); otherwise 403 when used up, or the counter goes up by one; parse or store failure lets the request through uncounted |
| CodeStore.CodeKey | app/api/redeem/route.ts:21 | the key is `code:` followed by the code |
| CodeStore.CodeKeyInjective | app/api/redeem/route.ts:21 | different codes have different keys |
| CodeStore.UsedValue | app/api/redeem/route.ts:34 | a redeemed code's value starts with `used:`, then the decimal time, and differs from `unused` |
| CodeStore.UnusedIsNotUsed | app/api/redeem/route.ts:29-33 | `unused` does not start with `used:`, so the two states are told apart by the prefix test |
| CodeStore.Lookup | app/api/redeem/route.ts:23 | `get` gives the stored value, or nothing exactly when the key is missing |
| CodeStore.Store.Set | app/api/redeem/route.ts:34 | `set` changes that key to the value and no other key |
| Redeem.Normalised | app/api/redeem/route.ts:19 | the trimmed, upper-cased code is no longer than the input and has no lower-case ASCII letter |
| Redeem.RedeemStep | app/api/redeem/route.ts:10-44 | every response with its status: the store changes only when an unused code is redeemed, and then only at its key; a token is issued only for a code that was unused and is now used |
| Redeem.Post | app/api/redeem/route.ts:10-44 | the route's response and new store are those of `RedeemStep` |
| Redeem.RedeemOnce | app/api/redeem/route.ts:29-37 | once redeemed, any later attempt with a code normalising to the same key is told it is already used, and changes nothing |
| AdminCodes.ParseCodeInfo | app/api/admin/codes/route.ts:43-52 | the code is the key minus `code:`; used exactly when the value starts with `used:`, with `usedAt` parsed from the rest; unused otherwise, without time |
| AdminCodes.CodeOfKey | app/api/admin/codes/route.ts:44 | the key of a code reads back as that code |
| AdminCodes.ListedState | app/api/admin/codes/route.ts:47-51 | a code redeemed at `t` is listed as used at `t`; an `unused` value lists like a missing one |
| AdminCodes.List | app/api/admin/codes/route.ts:15-69 | a wrong or missing password gives 401 and a store failure 500; otherwise the parsed entries sorted by status and time, empty for no keys |
| AdminCodes.UnusedOnesAreTies | app/api/admin/codes/route.ts:59-61 | the unused entries are exactly those with the comparator's tie key |
| AdminCodes.ListingOrder | app/api/admin/codes/route.ts:55-62 | one entry per key; used before unused; used by non-increasing time; equal times and unused entries keep scan order |
| AdminGenerate.GenerateCode | app/api/admin/generate/route.ts:9-16 | eight characters from the alphabet without I, O, 0 and 1 |
| AdminGenerate.CodeCount | app/api/admin/generate/route.ts:21-31 | the loop runs 10 times when `count` is missing, `count` clamped to [1, 100] and rounded up otherwise, and 0 times for NaN |
| AdminGenerate.IntegerCount | app/api/admin/generate/route.ts:27 | an integer count is clamped to [1, 100] |
| AdminGenerate.SuccessMessage | app/api/admin/generate/route.ts:40 | the message starts with its fixed prefix |
| AdminGenerate.SuccessMessageCount | app/api/admin/generate/route.ts:40 | the number in the message reads back as the number of codes |
| AdminGenerate.WriteAllEffect | app/api/admin/generate/route.ts:31-35 | after the writes every generated code's key holds `unused`, and every other key is as it was |
| AdminGenerate.Post | app/api/admin/generate/route.ts:18-46 | parse failure and store failure give 500, a failed password 401; otherwise `CodeCount` well-formed codes, all written as `unused`, with a message giving their number |
| StableSort.SortIsPermutation | lib/quantize.ts:209 | the sort is a permutation of its input |
| StableSort.SortIsSorted | lib/quantize.ts:209 | the sort leaves no element ranked below a later one |
| StableSort.SortIsStable | app/api/admin/codes/route.ts:55-62 | elements with equal keys keep their input order |
| StableSort.InsertInPlace | lib/quantize.ts:209 | one pass of the in-place sort inserts `a[i]` into the sorted prefix and leaves the rest |
| StableSort.SortDescending | lib/quantize.ts:209 | the array ends up as the stable descending sort of its old contents |

## Left out

- Floating point: luma, `rgb2lab` and `labDistance` are IEEE doubles in the source.
  The luma is computed exactly here, on 1000 times its value. The colour distance
  is a parameter, and every property holds for any distance function.
- Quantize.GrayOf: rounds the exact luma. A double product landing just below a
  half can round the other way.
- Quantize.BwOf: compares the exact luma with 128, not the double product.
- GridRenderer.IsLightColor: compares the exact luma with 140, not the double
  product.
- The label font-size formula of `renderGridPattern` (lib/grid-renderer.ts:83-85) is
  a floored double product. It only sizes text.
- The image-q library (`buildPaletteSync`, `applyPaletteSync`, dithering) is foreign
  code. Its palette points and result points are inputs.
- `resizeAndExtract`, all canvas drawing, `renderPixelPreview` and `canvasToBlob`
  work on the DOM. The cell geometry of the drawing loop is modelled.
- Quantize.ToGrayscale: requires a buffer whose length is a multiple of 4. Canvas
  RGBA buffers always are. The source would read past the end otherwise.
- Quantize.ToBW: requires a buffer whose length is a multiple of 4, for the same
  reason.
- JWT signing and verification (`signUsageToken`, `verifyUsageToken`, the jose
  library and `JWT_SECRET`) are parameters `sign` and `verify`. The token's
  payload type and its seven-day expiry are left to them.
- `Date.now()` is the parameter `now`. `Math.random()` is an arbitrary index into
  the alphabet.
- Store failures (Redis connection and thrown errors) are a single `storeUp` flag
  per request.
- AdminGenerate.Post: leaves out a failure in the middle of the write loop, which
  would leave the codes already written in place.
- The SCAN loop of `/api/admin/codes` is replaced by the list of keys it returns.
  Keys other than `code:*` are not part of this model.
- The Upstash client's JSON deserialisation of stored values is left out. Values
  are strings.
- lib/redis.ts, the static palette tables (lib/perler-palette.ts,
  lib/hama-palette.ts and the rest), lib/builtin-images.ts, the React components
  and the pages are not part of this model.
- The free-use counters and the redemption codes live in one store in the source.
  Here they are two maps, `CounterStore` and `Store`. The `usage:` and `code:`
  prefixes keep their keys distinct.
- Redeem.Normalised: upper-cases ASCII letters only. `toUpperCase` also maps
  other scripts.
- Usage.GenerateFingerprint: hashes Unicode scalar values. `charCodeAt` gives
  UTF-16 code units, which differ only for characters outside the Basic
  Multilingual Plane.
- PaletteRegistry.MakeBeadColor: requires a well-formed `#RRGGBB` string. With other
  strings the source stores integer or `NaN` channels depending on the text
  (`#FFF` gives 255, 15 and `NaN`), and the integer channels cannot hold `NaN`.
  Every call site passes a literal `#RRGGBB` (lib/perler-palette.ts:9,
  lib/hama-palette.ts:9). `Hex2Rgb` itself is total and models `NaN` as `None`.
- Text.ParseIntPrefix: returns exact integers. `parseInt` returns a double, which
  rounds values above 2^53; the strings parsed here are timestamps and two-digit
  slices, far below that.
- AdminCodes.List: a used entry whose time does not parse sorts as time 0. The
  source's comparator yields `NaN` for it, which leaves the engine's order
  unspecified.
- AdminGenerate.CodeCount: does not represent `±Infinity`. These clamp to 100 and
  1 just as large finite values do.
- GridRenderer.ResolveOptions: does not model an option passed explicitly as
  `undefined`. Object spread lets such an option override the default.
