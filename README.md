# Hypercastle palettes, colour animation and terraform queries in Dafny

This project models the core of the Hypercastle explorer client:

- **Render data.** A terraform's SVG document is turned into render data. The glyph grid of
  32 × 32 cells is decoded. The two glyph palettes are derived: `CharSet` is `originalChars`
  followed by ten-codepoint runs from the `uni` anchors. `MainCharSet` is either the same
  array or `originalChars` reversed. Each cell gets a depth context. The colour map holds the
  first colour declared for each class.
- **Colour animation.** Each frame, the CSS keyframe colour animation steps every animation
  state. A state past its delay writes the colour of the first keyframe at its new ratio.
- **Glyph animation.** Each tick, `Animation.Update` scans the 32 × 32 grid. For each cell it
  picks a glyph from a palette by mode, depth and tick counter. It may emit a font size and
  may blank the cell. Then the counter advances, wrapping at 2^32.
- **Fixed lists.** `FixedList`/`NativeFixedList` are the fixed-capacity buffers the palettes
  are built in.
- **First-match search.** `CollectionExtensions.FirstIndex` is the search the parser uses.
- **Terraform queries.** The editor parses a query of ids and `a=>b` ranges into a list of
  token ids.

Module by module:

| module | file | models |
|---|---|---|
| `SvgTypes` | svg_types.dfy | colours, generation inputs and their mode predicates, contexts, keyframes, animation data and state |
| `ColorCodec` | color_codec.dfy | `ToColor32` and its inverse, the `rgb(r, g, b)` text |
| `GlyphGrid` | glyph_grid.dfy | cell text decoding (`char.ConvertToUtf32`), filling the 1024-cell grid |
| `CollectionExtensions` | collection_extensions.dfy | `FirstIndex` |
| `FixedLists` | fixed_list.dfy | the `FixedList` class: `Add`, `AddRange`, `TrimExcess`, `Reverse`, `ToArray`, the array conversion |
| `CharSets` | char_sets.dfy | `MakeSet` and the charset section of `Parse`: `originalChars`, the anchor-run table, `CharSet`, `MainCharSet` |
| `RenderData` | render_data.dfy | the `SvgRenderData` class (`Initialize`, `GetAssociatedColor`, `UpdateColors`), `ParseArray`, and `Parse` over the extracted sections |
| `Animation` | animation.dfy | `Animation.Update` as a method that returns the events it fires |
| `TerraformQuery` | terraform_query.dfy | `ValidTerraformRange`, `GenerateTerraformList` with `string.Split` and `int.TryParse` |
| `Fixtures` | fixtures.dfy | the palettes that the parser tests expect for tokens 556, 1122, 7034, 8857 and 7702 |
| `Decimal`, `Wrappers` | decimal.dfy, wrappers.dfy | ASCII digit strings, `Option`/`Result` |

Points of the code worth stating outright:

- **Cell index.** In `Animation.Update` the outer loop variable `x` is the row and `y` the
  column, so a cell's index is `y + 32·x`.
- **Blanking.** A cell is blanked when its original *or* its active class is `'j'`; this is
  what the double negation at Animation.cs:61 amounts to.
- **Section order.** The script section reads the grid that the `foreignObject` section
  fills, so `RenderData.Parse` takes the sections in the order style, grid, script.
- **Anchor wrap.** `MakeSet` loops while `i < unicode + 10` in 32-bit arithmetic; for an
  anchor of 2147483638 or more that bound wraps negative and the anchor adds no codepoints.

Errors are results, not exceptions. `GenerateTerraformList` returns `None` where the source
returns null. `Parse` returns a `ParseError` for the grid and script exceptions it models,
and the first one the source would raise:

1. `.First()` finds no background colour;
2. a cell has a bad surrogate or an empty class attribute, or there are more than 1024 cells;
3. an anchor overflows `int.Parse`;
4. there are class ids but no glyph cells, so the originalChars loop reads the null class
   array;
5. the seed selects an anchor index outside the array;
6. there are no glyph cells, so `Initialize` reads the null class array.

## Model

| member | source | states |
|---|---|---|
| SvgTypes.AnimationInput.SpeedFactor | Assets/HypercastleSDK/Hypercastle.Web/SvgUtils.cs:26 | the speed factor is 30 exactly when the seed exceeds 6500, 1 otherwise, and never 0 (it is a divisor of the tick counter) |
| SvgTypes.OriginIsTerraformed | Assets/HypercastleSDK/Hypercastle.Web/SvgUtils.cs:24-25 | `IsOrigin` and `IsTerraformed` coincide, and both hold exactly in modes 3 and 4 |
| SvgTypes.AnimatedModes | Assets/HypercastleSDK/Hypercastle.Web/SvgUtils.cs:23-25 | `IsDayDream` holds exactly in modes 1 and 3; the animated branch (`IsDayDream` or `IsTerraformed`) runs exactly in modes 1, 3 and 4 |
| SvgTypes.Int32Wrap | Assets/HypercastleSDK/Hypercastle.Web/SvgUtils.cs:306 | the unchecked `int` sum lies in the `int` range, is the exact sum when that fits, and is the sum minus 2^32 just past the top |
| ColorCodec.DigitGroups | Assets/HypercastleSDK/Hypercastle.Web/SvgUtils.cs:237 | the `[0-9]{1,3}` matches are non-empty digit strings of at most three digits |
| ColorCodec.ParseByte | Assets/HypercastleSDK/Hypercastle.Web/SvgUtils.cs:252-254 | `byte.Parse` succeeds exactly on values below 256, with the decimal value |
| ColorCodec.ToColor32 | Assets/HypercastleSDK/Hypercastle.Web/SvgUtils.cs:248-259 | three matches give the opaque colour of their values; any other count gives the default colour; with three matches, a value above 255 is the failure (the `byte.Parse` exception) and nothing else fails |
| ColorCodec.RgbTextGroups | Assets/HypercastleSDK/Hypercastle.Web/SvgUtils.cs:248-251 | the matches of `rgb(r, g, b)` are exactly the three decimal numbers, in order |
| ColorCodec.ToColor32RoundTrip | Assets/HypercastleSDK/Hypercastle.Web/SvgUtils.cs:248-259 | reading the `rgb(r, g, b)` text of any opaque colour gives that colour back |
| GlyphGrid.ConvertToUtf32 | Assets/HypercastleSDK/Hypercastle.Web/SvgUtils.cs:426-428 | a non-surrogate unit is its own codepoint; a high surrogate followed by a low surrogate decodes to a codepoint ≤ 0x10FFFF; a lone or reversed surrogate is the failure (ArgumentException), and only then |
| GlyphGrid.DecodeCell | Assets/HypercastleSDK/Hypercastle.Web/SvgUtils.cs:418-429 | an empty text gives a space (32), one unit gives that unit, two units go through ConvertToUtf32, longer texts leave 0; only two-unit texts can fail |
| GlyphGrid.DecodeEncode | Assets/HypercastleSDK/Hypercastle.Web/SvgUtils.cs:418-429 | every Unicode scalar value, written as one or two UTF-16 code units, decodes back to itself |
| GlyphGrid.SurrogatePair | Assets/HypercastleSDK/Hypercastle.Web/SvgUtils.cs:426-428 | a surrogate pair decodes to 0x10000 + (hi − 0xD800)·0x400 + (lo − 0xDC00), which lies in the supplementary planes and re-encodes to the same pair |
| GlyphGrid.TwoPlainUnitsKeepFirst | Assets/HypercastleSDK/Hypercastle.Web/SvgUtils.cs:426-428 | a two-unit text without surrogates keeps its first unit and drops the second |
| GlyphGrid.FillGrid | Assets/HypercastleSDK/Hypercastle.Web/SvgUtils.cs:407-433 | the grid fills without an exception exactly when there are at most 1024 cells, each with a non-empty class attribute and a decodable text; then both arrays have 1024 entries, cell j holds its decoded glyph and the first character of its class, and later entries keep 0 and NUL |
| CollectionExtensions.FirstIndex | Assets/HypercastleSDK/Hypercastle.Web/CollectionExtensions.cs:10-18 | −1 exactly when no element satisfies the condition; otherwise an index within the collection whose element satisfies it, with every earlier element failing it (the first match) |
| CollectionExtensions.FirstIndexFrom | Assets/HypercastleSDK/Hypercastle.Web/CollectionExtensions.cs:12-17 | the same, for the loop entered at position i |
| FixedLists.ReversedAt | Assets/HypercastleSDK/Hypercastle.Collections/FixedList.cs:144-156 | position k of the reversal is position n − 1 − k of the original |
| FixedLists.ReversedTwice | Assets/HypercastleSDK/Hypercastle.Collections/FixedList.cs:144-156 | reversing twice restores the original order |
| FixedLists.FixedList.constructor | Assets/HypercastleSDK/Hypercastle.Collections/FixedList.cs:48-53 | a new list has length 0, capacity equal to the size and a fresh backing array (the FixedList constructor at lines 23-27 is the same) |
| FixedLists.FixedList.Add | Assets/HypercastleSDK/Hypercastle.Collections/FixedList.cs:108-112 | with room left, the item is written at the old length, the length grows by one and every other slot is unchanged (also lines 68-72) |
| FixedLists.FixedList.AddRange | Assets/HypercastleSDK/Hypercastle.Collections/FixedList.cs:115-122 | the items are appended in enumeration order, the length grows by their count, and unused slots keep their values (also lines 75-81) |
| FixedLists.FixedList.TrimExcess | Assets/HypercastleSDK/Hypercastle.Collections/FixedList.cs:125-141 | with unused room, a fresh backing array of exactly the length holds the same items; a full list keeps its array; the capacity never grows (also lines 84-90) |
| FixedLists.FixedList.Reverse | Assets/HypercastleSDK/Hypercastle.Collections/FixedList.cs:144-156 | the used items are reversed in place; the length and every slot past it are unchanged (also lines 93-105) |
| FixedLists.FixedList.ToArray | Assets/HypercastleSDK/Hypercastle.Collections/FixedList.cs:159-162 | a fresh copy of the whole backing array, of length equal to the capacity, unused slots included |
| FixedLists.FixedList.AsArray | Assets/HypercastleSDK/Hypercastle.Collections/FixedList.cs:29-32 | the implicit `T[]` conversion gives the backing array itself, not a copy |
| CharSets.ClassIndex | Assets/HypercastleSDK/Hypercastle.Web/SvgUtils.cs:482-483 | the index of the first cell of a class, −1 exactly when no cell has it |
| CharSets.OriginalChars | Assets/HypercastleSDK/Hypercastle.Web/SvgUtils.cs:478-489 | originalChars never has more entries than there are class ids |
| CharSets.Run | Assets/HypercastleSDK/Hypercastle.Web/SvgUtils.cs:304-310 | a run has ten codepoints when `unicode + 10` stays within `int` and none otherwise, all within `int` |
| CharSets.Fitting | Assets/HypercastleSDK/Hypercastle.Web/SvgUtils.cs:304-310 | the anchors whose runs survive the wrap: each is below 2147483638 and comes from the list, and with no wrapping anchor it is the whole list |
| CharSets.Selected | Assets/HypercastleSDK/Hypercastle.Web/SvgUtils.cs:496-529 | the seed table calls MakeSet RunCount times, never more than there are anchors, each time with one of the anchors |
| CharSets.AnchorRuns | Assets/HypercastleSDK/Hypercastle.Web/SvgUtils.cs:496-529 | the branch table appends at most ten codepoints per MakeSet call |
| CharSets.MakeSet | Assets/HypercastleSDK/Hypercastle.Web/SvgUtils.cs:304-310 | appends the codepoints unicode, unicode + 1, …, unicode + 9 to the list in place when `unicode + 10` stays within `int`, and nothing when that 32-bit sum wraps (anchors of 2147483638 or more) |
| CharSets.AppendRuns | Assets/HypercastleSDK/Hypercastle.Web/SvgUtils.cs:496-529 | the branch table appends exactly the runs of the anchors Selected picks for mode and seed |
| CharSets.AppendEachRun | Assets/HypercastleSDK/Hypercastle.Web/SvgUtils.cs:500-503 | the `foreach` appends one run per anchor, in anchor order |
| CharSets.AppendSameRun | Assets/HypercastleSDK/Hypercastle.Web/SvgUtils.cs:506-513 | the origin branch up to seed 9000 appends the run of the anchor at seed mod \|unicodes\| once per anchor |
| CharSets.CollectOriginalChars | Assets/HypercastleSDK/Hypercastle.Web/SvgUtils.cs:478-489 | a fresh list with room for one glyph per class id, holding originalChars |
| CharSets.AssembleCharSet | Assets/HypercastleSDK/Hypercastle.Web/SvgUtils.cs:491-533 | the charset array is originalChars followed by the selected runs |
| CharSets.BuildCharSets | Assets/HypercastleSDK/Hypercastle.Web/SvgUtils.cs:478-542 | CharSet is originalChars followed by the runs of the selected anchors, those that wrap adding nothing; MainCharSet is CharSet itself for seeds above 9950 and otherwise originalChars reversed |
| CharSets.RunsAt | Assets/HypercastleSDK/Hypercastle.Web/SvgUtils.cs:304-310 | the runs of a list of anchors have ten entries per anchor that does not wrap and none for the others; position p is the (p / 10)-th such anchor plus p mod 10 |
| CharSets.CharSetLayout | Assets/HypercastleSDK/Hypercastle.Web/SvgUtils.cs:491-533 | For any prefix `original` (CharSetOf puts originalChars there), `original` + AnchorRuns has \|original\| + 10 · \|Appended\| entries, where Appended is the selected anchors below 2147483638 and never more than RunCount: `original` first, then run k at positions \|original\| + 10k … + 9, each its anchor plus its offset and within `int`; when no anchor wraps, every selected anchor contributes its run |
| CharSets.WrappingAnchorsAddNothing | Assets/HypercastleSDK/Hypercastle.Web/SvgUtils.cs:304-310 | when every anchor is 2147483638 or more, CharSet is originalChars alone |
| CharSets.OriginalCharsComplete | Assets/HypercastleSDK/Hypercastle.Web/SvgUtils.cs:478-489 | originalChars has one entry per class id exactly when every class id is carried by some cell (fixture 8857 has one class id without a cell) |
| CharSets.OriginalCharsFirstCells | Assets/HypercastleSDK/Hypercastle.Web/SvgUtils.cs:478-489 | when every class id is on the grid, entry k is the glyph of the first cell of class id k |
| CharSets.OriginalCharsOnGrid | Assets/HypercastleSDK/Hypercastle.Web/SvgUtils.cs:478-489 | every entry of originalChars is the glyph of some cell whose class is a class id |
| CharSets.OriginalCharsNonEmpty | Assets/HypercastleSDK/Hypercastle.Web/SvgUtils.cs:478-489 | one class id carried by a cell makes originalChars non-empty |
| CharSets.MainCharSetShape | Assets/HypercastleSDK/Hypercastle.Web/SvgUtils.cs:535-542 | MainCharSet equals CharSet for seeds above 9950, and otherwise is originalChars back to front |
| CharSets.PalettesNonEmpty | Assets/HypercastleSDK/Hypercastle.Web/SvgUtils.cs:478-542 | both palettes are non-empty once one class id is carried by a cell |
| RenderData.ContextOf | Assets/HypercastleSDK/Hypercastle.Web/SvgUtils.cs:105-116 | a cell's context has its class as original and active class and a depth that is never 0: in [1, \|ClassIds\|] with the class at position \|ClassIds\| − h and not before it for a known class, \|ClassIds\| + 1 for an unknown one |
| RenderData.ClassColorIndex | Assets/HypercastleSDK/Hypercastle.Web/SvgUtils.cs:128-135 | the first base style of the class, −1 exactly when there is none |
| RenderData.FirstWins | Assets/HypercastleSDK/Hypercastle.Web/SvgUtils.cs:119-123 | the `TryAdd` map has exactly the classes that have a base colour as keys |
| RenderData.FirstWinsLookup | Assets/HypercastleSDK/Hypercastle.Web/SvgUtils.cs:119-137 | a class is in the initial map exactly when some base style has it, and it maps to the colour of the first such style |
| RenderData.KeyframeIndex | Assets/HypercastleSDK/Hypercastle.Web/SvgUtils.cs:154-161 | the first keyframe whose percentage equals the ratio, −1 exactly when none does |
| RenderData.ColorsAfterWrites | Assets/HypercastleSDK/Hypercastle.Web/SvgUtils.cs:139-167 | a frame never removes a class from the colour map, and a class whose colour changes belongs to an animation past its delay and now holds some keyframe's colour |
| RenderData.DelayedFrameKeepsColors | Assets/HypercastleSDK/Hypercastle.Web/SvgUtils.cs:162-165 | a frame in which every animation is still delayed leaves the colour map unchanged |
| RenderData.FloatRemRange | Assets/HypercastleSDK/Hypercastle.Web/SvgUtils.cs:147-149 | the `%` of a non-negative time by a positive duration lies in [0, duration) |
| RenderData.StepStaysInCycle | Assets/HypercastleSDK/Hypercastle.Web/SvgUtils.cs:144-153 | with a positive duration and a frame no longer than a cycle, the time stays in [0, duration], and past the delay the ratio lies in [0, 99], so a keyframe at 100% is never selected |
| RenderData.SvgRenderData.constructor | Assets/HypercastleSDK/Hypercastle.Web/SvgUtils.cs:330 | the data holds the parsed sections; contexts and colour map are empty and the tick counter is 0 |
| RenderData.SvgRenderData.Initialize | Assets/HypercastleSDK/Hypercastle.Web/SvgUtils.cs:103-124 | exactly 1024 fresh contexts, cell i getting ContextOf its class, and the colour map holding the first colour of each class |
| RenderData.SvgRenderData.GetAssociatedColor | Assets/HypercastleSDK/Hypercastle.Web/SvgUtils.cs:126-137 | the colour the initial map holds for the class, and the default colour for a class it lacks |
| RenderData.SvgRenderData.UpdateColors | Assets/HypercastleSDK/Hypercastle.Web/SvgUtils.cs:139-167 | each state steps (its delay counts down, or its time steps back by deltaTime modulo the duration), and the colour map is the old map after each non-delayed state, in order, writes its class with the first keyframe at its new ratio |
| RenderData.SvgRenderData.UpdateFromKeyframes | Assets/HypercastleSDK/Hypercastle.Web/SvgUtils.cs:154-161 | the first keyframe at the ratio sets the class's colour, and no matching keyframe leaves the map unchanged |
| RenderData.ParseArray | Assets/HypercastleSDK/Hypercastle.Web/SvgUtils.cs:312-326 | one converted element per match, in match order |
| RenderData.InitialAnimationStates | Assets/HypercastleSDK/Hypercastle.Web/SvgUtils.cs:349-360 | one state per animation, in order, with its class, a full duration as time and its delay |
| RenderData.ClassIdsOf | Assets/HypercastleSDK/Hypercastle.Web/SvgUtils.cs:465-469 | one class id per `'x'` match |
| RenderData.UnicodesOf | Assets/HypercastleSDK/Hypercastle.Web/SvgUtils.cs:472-476 | one anchor per digit match |
| RenderData.Assemble | Assets/HypercastleSDK/Hypercastle.Web/SvgUtils.cs:436-549 | with the style and grid in place, the script section and Initialize produce the model the sections describe (ModelOf), padding cells included |
| RenderData.Parse | Assets/HypercastleSDK/Hypercastle.Web/SvgUtils.cs:328-552 | the missing background colour, a malformed grid, an anchor beyond `int`, class ids without cells, an anchor index outside the array and an empty grid each give their error, in the order the source raises them; success exactly when none occurs, and the result is then the model the sections describe, with padding cells NUL and 0 |
| Animation.TruncRem | Assets/HypercastleSDK/Hypercastle.Render/Animation.cs:35 | C#'s `%` keeps the dividend's sign, lies strictly between −n and n, and agrees with the mathematical remainder on non-negative dividends |
| Animation.CellAt | Assets/HypercastleSDK/Hypercastle.Render/Animation.cs:24-65 | every event of cell k addresses k, and a font size only comes from an animated cell of non-zero depth whose draw fired, for seeds above 5000, with a size in [3, 36] |
| Animation.Update | Assets/HypercastleSDK/Hypercastle.Render/Animation.cs:11-70 | the events are those of the 1024 cells in scan order, and the counter advances by one modulo 2^32; contexts and palettes are only read |
| Animation.CellUpdate | Assets/HypercastleSDK/Hypercastle.Render/Animation.cs:24-65 | the dispatch on mode and depth emits exactly the cell's events |
| Animation.CellEventsShape | Assets/HypercastleSDK/Hypercastle.Render/Animation.cs:27-66 | mode 0 gives one main-palette glyph exactly when h > 6 − resource; modes outside 0, 1, 3, 4 give nothing; depth 0 gives one main-palette glyph; other depths give the char-palette glyph at (airShip / speed + x + h) mod \|charSet\|, then possibly a font size, then a blank exactly when the original or the active class is 'j' |
| Animation.EachCellOnce | Assets/HypercastleSDK/Hypercastle.Render/Animation.cs:20-25 | the events a tick addresses to cell k are exactly that cell's events when k < 1024 and none otherwise: each cell is visited exactly once |
| Animation.ScanOrder | Assets/HypercastleSDK/Hypercastle.Render/Animation.cs:20-25 | a tick's event indices lie in [0, 1024) and never decrease: the scan runs row by row, index y + 32·x |
| Animation.InactiveModeEmitsNothing | Assets/HypercastleSDK/Hypercastle.Render/Animation.cs:27-39 | outside modes 0, 1, 3 and 4 a tick emits no event |
| Animation.FontSizesInRange | Assets/HypercastleSDK/Hypercastle.Render/Animation.cs:56-59 | every font-size event of a tick comes from an animated cell of non-zero depth whose draw fired, for seeds above 5000, and sets a size in [3, 36] |
| Animation.TicksWrap | Assets/HypercastleSDK/Hypercastle.Render/Animation.cs:69 | n ticks add n to the counter modulo 2^32 |
| Animation.DeepContextsDefined | Assets/HypercastleSDK/Hypercastle.Render/Animation.cs:29-53 | contexts of depth ≥ 1, as Initialize builds them, keep every palette index in range: a non-empty char palette for animated modes, and a non-empty main palette with a non-negative direction for mode 0 |
| TerraformQuery.SplitOn | Assets/HypercastleSDK/Hypercastle.Editor/AbiUtils.cs:142 | `Split` always yields at least one part |
| TerraformQuery.JoinSplit | Assets/HypercastleSDK/Hypercastle.Editor/AbiUtils.cs:142 | splitting loses nothing: joining the parts with the separator gives the text back |
| TerraformQuery.ContainsSplits | Assets/HypercastleSDK/Hypercastle.Editor/AbiUtils.cs:145-147 | a token containing `=>` splits into at least two parts, so both range ends exist |
| TerraformQuery.ParseInt32 | Assets/HypercastleSDK/Hypercastle.Editor/AbiUtils.cs:148-149 | `int.TryParse` accepts only values within the 32-bit range |
| TerraformQuery.ParseInt32RoundTrip | Assets/HypercastleSDK/Hypercastle.Editor/AbiUtils.cs:148-149 | the decimal text of every 32-bit value, with a minus sign when negative, parses back to it |
| TerraformQuery.SingleToken | Assets/HypercastleSDK/Hypercastle.Editor/AbiUtils.cs:173-181 | a plain number token adds exactly itself when 0 < v ≤ MAX_TERRAFORM_ID, and nothing otherwise |
| TerraformQuery.QueryIdsIncludeTokens | Assets/HypercastleSDK/Hypercastle.Editor/AbiUtils.cs:143-182 | every id any token adds is in the query |
| TerraformQuery.QueryIdsFromTokens | Assets/HypercastleSDK/Hypercastle.Editor/AbiUtils.cs:143-182 | every id in the query was added by some token |
| TerraformQuery.CountUp | Assets/HypercastleSDK/Hypercastle.Editor/AbiUtils.cs:158-163 | the counter values of the descending loop are exactly the integers of [b, a] |
| TerraformQuery.AscendingIds | Assets/HypercastleSDK/Hypercastle.Editor/AbiUtils.cs:151-156 | the ids the ascending loop adds are exactly the valid ids of [a, b] |
| TerraformQuery.AppendNewProperties | Assets/HypercastleSDK/Hypercastle.Editor/AbiUtils.cs:141 | adding ids to the set keeps it free of repeats, keeps what it held, and adds exactly the new ids |
| TerraformQuery.TokenIdListMatches | Assets/HypercastleSDK/Hypercastle.Editor/AbiUtils.cs:145-181 | the ids one token adds, in loop order, are exactly its set of ids: valid ids of [a, b] for a < b, all of [b, a] when a is valid, nothing for an unparsable range, the value of a valid plain token |
| TerraformQuery.QueryListMatches | Assets/HypercastleSDK/Hypercastle.Editor/AbiUtils.cs:141-187 | the query's ids in insertion order have no repeats and are exactly the union of the tokens' ids |
| TerraformQuery.GenerateTerraformList | Assets/HypercastleSDK/Hypercastle.Editor/AbiUtils.cs:133-188 | null or empty text gives null; otherwise every id the comma-separated tokens add, each once, in the order first added |
| TerraformQuery.AddToken | Assets/HypercastleSDK/Hypercastle.Editor/AbiUtils.cs:145-181 | one pass of the token loop adds exactly the token's ids, in order, skipping ids already present |
| TerraformQuery.ExpandRange | Assets/HypercastleSDK/Hypercastle.Editor/AbiUtils.cs:148-164 | a parsed range runs the ascending loop when a < b and the descending loop otherwise |
| TerraformQuery.CountAscending | Assets/HypercastleSDK/Hypercastle.Editor/AbiUtils.cs:151-156 | counting a up to b adds the valid ids in increasing order |
| TerraformQuery.CountDescending | Assets/HypercastleSDK/Hypercastle.Editor/AbiUtils.cs:158-163 | counting b up to a adds every value when a is valid, and nothing when it is not |
| TerraformQuery.DescendingAddsInvalidIds | Assets/HypercastleSDK/Hypercastle.Editor/AbiUtils.cs:158-163 | because validity is tested on a, not on the counter, a token `a=>b` with a valid and b ≤ 0 adds the id b, which is not valid |
| TerraformQuery.DescendingAddsZero | Assets/HypercastleSDK/Hypercastle.Editor/AbiUtils.cs:158-163 | the query `5=>0` adds the id 0, which is not a valid terraform id |
| TerraformQuery.CounterAfter | Assets/HypercastleSDK/Hypercastle.Editor/AbiUtils.cs:153 | the 32-bit loop counter stays within the 32-bit range after any number of increments |
| TerraformQuery.RangeLoopAtInt32MaxNeverExits | Assets/HypercastleSDK/Hypercastle.Editor/AbiUtils.cs:153 | the counter never exceeds 2147483647: it climbs by one up to it and then wraps to −2147483648, so `counter <= 2147483647` never fails |
| Fixtures.Fixture556 | Assets/HypercastleSDK/Hypercastle.Tests/SvgUtilsTests.cs:51-82 | nine class ids i … a with all ids on the grid, no runs and a seed ≤ 9950 give the tested CharSet and its reversal as MainCharSet |
| Fixtures.Fixture1122 | Assets/HypercastleSDK/Hypercastle.Tests/SvgUtilsTests.cs:111-143 | the tested originalChars plus the single run from 9620 is the tested CharSet; MainCharSet is the palindromic originalChars |
| Fixtures.Fixture7034 | Assets/HypercastleSDK/Hypercastle.Tests/SvgUtilsTests.cs:145-178 | no runs and a seed ≤ 9950 give the tested CharSet and its reversal as MainCharSet |
| Fixtures.Fixture8857 | Assets/HypercastleSDK/Hypercastle.Tests/SvgUtilsTests.cs:180-215 | eight glyphs for nine class ids mean one class id has no cell; with the run from 9610 the tested palettes follow |
| Fixtures.Fixture7702 | Assets/HypercastleSDK/Hypercastle.Tests/SvgUtilsTests.cs:217-246 | no runs and a seed ≤ 9950 give the tested CharSet and its reversal as MainCharSet |

## Left out

- Document extraction is not modelled. This covers the XML document, the ExCSS stylesheet,
  the regular expressions and `RecurseFindGlyphParent`. `Parse` takes the extracted sections
  (`Sections`) as input, in the order style, grid, script. Several style sections, and the
  script section arriving before the grid, are not modelled.
- The script constants (`MODE`, `SEED`, `DIRECTION`, `RESOURCE / 1e4`) arrive already read as
  `AnimationInput`. Animation durations and delays (`float.Parse` of the millisecond text,
  divided by 1000) arrive as `AnimationData`.
- Floating point is modelled with reals. The float `%`, `Mathf.FloorToInt` and the index
  formulas of mode 0 and depth 0 are exact here, with no rounding. The conversion of the
  `long` depth index to `float` before `FloorToInt` is also exact.
- RenderData.Parse: reports only the grid and script exceptions listed above. Because the
  sections arrive already converted, it does not report the `byte.Parse` overflow in
  `ToColor32` for background, base or keyframe colours. It also does not report a failing
  `float.Parse` of a duration or a failing `int.Parse` of a script constant. The anchors are
  ASCII digit strings, so it does not report the FormatException `int.Parse` raises on the
  other Unicode decimal digits that the `\d` pattern matches.
- Animation.DeepContextsDefined: assumes `Mathf.FloorToInt` of the depth index is exact. For
  seeds up to 6500, `airShip / 1 + x + h` passes 2^31 before `airShip` wraps at 2^32. The
  source's `FloorToInt` then overflows `int` and gives a negative index, and indexing
  the palette with it throws IndexOutOfRangeException. The model keeps the exact,
  non-negative index.
- RenderData.SvgRenderData.UpdateColors: requires non-zero animation durations. The source
  divides by the duration and would get NaN, which reals cannot represent.
- `UnityEngine.Random.value < 0.005` is an input: one boolean draw per cell (`draws`).
- The `textUpdate`/`fontSizeAction` callbacks are not called. `Animation.Update` returns the
  sequence of events it would fire, in order.
- Animation.Update: requires every palette index to be in range (`UpdateDefined`). Otherwise
  the source throws IndexOutOfRangeException or DivideByZeroException.
  `DeepContextsDefined` gives sufficient conditions for that requirement.
- `NativeFixedList`'s unmanaged memory, `Allocator`, `UnsafeUtility.MemCpy` and `Dispose` are
  not modelled. `FixedList` and `NativeFixedList` share one class, and `FixedList.Add` does
  not model writing past the capacity (IndexOutOfRangeException).
- Null strings and arrays are not modelled, except the null/empty query string, which is
  `Option<string>`.
- TerraformQuery.ParseInt32: accepts ASCII digits, an ASCII sign and the ASCII white-space
  characters tab to carriage return and space. Culture-specific signs, other Unicode white
  space and trailing NULs, which .NET also accepts, are not modelled.
- TerraformQuery.GenerateTerraformList: returns the ids in first-insertion order, which is
  the order `HashSet<int>` enumerates when nothing is removed. .NET does not document this
  order.
- The `Debug.LogError`/`Debug.LogWarning` messages of `GenerateTerraformList` are not
  modelled.
- `ParseColor` is not modelled. It delegates to Unity's `ColorUtility` and nothing calls it.
- The other `MakeSet` overloads (into `List<List<int>>`, `List<int>` and `ref FixedList<int>`)
  are not modelled separately. They append the same ten codepoints as the `NativeFixedList`
  overload that `Parse` uses.
- Editor UI, networking and contract calls are not part of this model. This covers `OnGUI`,
  `FetchTerraformData`, `FetchAndSerializeAbi` and `GetTokenCount` in AbiUtils.cs,
  HypercastleClient.cs, HyperCastleDTO.cs and the contract tests.
- The fixture tests read SVG files from disk; those files are not part of this model. Each
  fixture lemma therefore takes the token's originalChars and its seed branch as hypotheses
  and derives the tested palettes from them.

## Findings

| source | as written | input that shows it | evidently intended | confidence | as-written member | corrected member |
|---|---|---|---|---|---|---|
| Assets/HypercastleSDK/Hypercastle.Editor/AbiUtils.cs:153 | the range loops count with a 32-bit `int` (`firstIndex++`, `secondIndex++`) until the counter passes the upper end, which it cannot do when that end is 2147483647: the counter wraps to −2147483648 and the loop never ends (line 160 likewise for the descending loop) | the query `1=>2147483647` (or `2147483647=>5`) | the range ends after its last value, adding the ids of [a, b] | high; not executed | TerraformQuery.RangeLoopAtInt32MaxNeverExits | TerraformQuery.CountAscending |
