# MyGUI font glyph tables, in Dafny

This project models the glyph-lookup data model of MyGUI's `Font` resource
(`MyGUIEngine/include/MyGUI_Font.h`). It covers:

- the code-point interval `PairCodePoint` and its membership test;
- the glyph record `GlyphInfo` and its default value;
- the dense per-range glyph table `RangeInfo`, whose `getInfo` maps a code point to
  slot `code - first` or to nothing;
- the manual glyph entry `PairCodeCoord` and its ordering;
- the `Font` object. It holds scalar configuration fields with setters and getters,
  five synthetic glyphs, and three independent lists: glyph ranges, hidden code-point
  ranges and manually placed glyphs.

Files:

- `types.dfy` (module `FontTypes`): `Char` (32-bit unsigned), `Uint32`, `Int32`,
  `Option`, `FloatRect`, `IntCoord`.
- `code_points.dfy` (module `CodePoints`): `PairCodePoint`, the first-match scan
  `FirstContaining`, and `PairCodeCoord` with its ordering lemma.
- `glyphs.dfy` (module `Glyphs`): `GlyphInfo` and the class `RangeInfo`, built over
  an `array`.
- `font.dfy` (module `Fonts`): the class `Font`, whose methods update its fields in
  place, and two scenario methods.

The bodies of the `Font` operations declared at `MyGUI_Font.h:139`, `:148-157` and
`:202` live in `MyGUI_Font.cpp`, which is not part of this model. Those operations
are modelled from their declarations, their comments and the fields they act on,
and the table below marks them as inferred. In particular:

- `getGlyphInfo` scans the ranges in registration order and returns the first hit,
  or nothing.
- `addCodePointRange`, `addHideCodePointRange` and the public `addGlyph` each append
  to their own list.
- `checkHidePointCode` is true when any hidden range contains the code.
- `clearCodePointRanges` empties only the list of glyph ranges.

The getters (`GetSource`, `GetDistance`, `GetSpaceGlyphInfo`, `GetName`,
`GetHeightPix` and the others) are plain field reads. They are stated through the
setters' contracts.

## Model

| member | source | states |
|---|---|---|
| `CodePoints.PairCodePoint.IsExist` | MyGUIEngine/include/MyGUI_Font.h:49 | The header's expression `first <= code <= last`. Its contract adds that a reversed interval contains no code; `CodePoints.FirstContaining` and `Fonts.Font.CheckHidePointCode` state what scanning a list of these tests gives. |
| `CodePoints.FirstContaining` | MyGUIEngine/include/MyGUI_Font.h:148 | The lookup scan (inferred). It returns nothing exactly when no interval contains the code. Otherwise it returns an index whose interval contains the code, and no earlier interval contains it (first match wins). |
| `CodePoints.FirstContainingAppend` | MyGUIEngine/include/MyGUI_Font.h:150 | Appending an interval leaves the answer unchanged for every code an earlier interval already contains. A code no earlier interval contains is found in the new interval exactly when that interval contains it. |
| `CodePoints.PairCodeCoord.Less` | MyGUIEngine/include/MyGUI_Font.h:118 | The header's `operator <`, comparing code points only. Entries it orders have different codes; `CodePoints.LessIsStrictWeakOrder` states the order's properties. |
| `CodePoints.LessIsStrictWeakOrder` | MyGUIEngine/include/MyGUI_Font.h:118 | `operator <` on manual glyphs compares code points only. It is irreflexive, asymmetric and transitive. Two entries are equivalent exactly when their codes are equal, whatever their rectangles, and that equivalence is transitive. |
| `Glyphs.DefaultGlyphInfo` | MyGUIEngine/include/MyGUI_Font.h:65-69 | A default glyph has code point 0, aspect ratio 1 and a zero rectangle. |
| `Glyphs.RangeInfo.Interval` | MyGUIEngine/include/MyGUI_Font.h:97 | The range's membership test agrees with the `PairCodePoint` test on `[first, last]` for every code. |
| `Glyphs.RangeInfo.IsExist` | MyGUIEngine/include/MyGUI_Font.h:96-97 | The header's expression `first <= code <= last`. Its contract adds that a contained code's slot `code - first` lies inside a well-formed table; `Glyphs.RangeInfo.Interval` ties it to `PairCodePoint.IsExist`. |
| `Glyphs.RangeInfo.constructor` | MyGUIEngine/include/MyGUI_Font.h:89-94 | For `first <= last` it stores both bounds. The table has exactly `last - first + 1` slots, and every code of the range reads a default glyph. |
| `Glyphs.RangeInfo.GetInfo` | MyGUIEngine/include/MyGUI_Font.h:99-100 | `getInfo` returns nothing exactly when the code is outside the range. Otherwise the slot is a valid index of the table, and `first + slot` is the code asked for. |
| `Glyphs.RangeInfo.Store` | MyGUIEngine/include/MyGUI_Font.h:100 | A write through the pointer `getInfo` hands out. It happens exactly when the code is in range, changes that code's glyph to the new value, and leaves every other code's glyph unchanged. |
| `Glyphs.SlotsAreOneToOne` | MyGUIEngine/include/MyGUI_Font.h:100 | Two in-range codes with the same slot are the same code. Every slot of the table is the slot of the code `first + slot`. |
| `Glyphs.AsWrittenRangeSize` | MyGUIEngine/include/MyGUI_Font.h:93 | The table size as written, in the unsigned 32-bit arithmetic of `Char`. It equals `last - first + 1` whenever that fits in 32 bits. It is 0 for the full range `[0, 0xFFFFFFFF]`, and for a reversed range with `last < first - 1` it wraps to 2^32 - (first - last - 1), between 2 and 2^32 - 1. |
| `Glyphs.FullRangeTableIsEmptyAsWritten` | MyGUIEngine/include/MyGUI_Font.h:93 | For the range `[0, 0xFFFFFFFF]`, code 0 passes the membership test but the table has 0 slots as written (see Findings). |
| `Fonts.Intervals` | MyGUIEngine/include/MyGUI_Font.h:243 | Lists the intervals of the registered tables in order. A code is in some listed interval exactly when some table's own membership test accepts it. |
| `Fonts.Font.constructor` | MyGUIEngine/include/MyGUI_Font.h:139 | A new font (inferred) has the given name and empty range, hidden-range and manual-glyph lists. Its five synthetic glyphs are default glyphs. |
| `Fonts.Font.GetGlyphInfo` | MyGUIEngine/include/MyGUI_Font.h:148 | `getGlyphInfo` (inferred) finds nothing exactly when no registered range contains the code. Otherwise it points into the first such range, at the slot that range's `getInfo` gives for the code, and that pointer is into a table the font holds. |
| `Fonts.Font.AddCodePointRange` | MyGUIEngine/include/MyGUI_Font.h:150 | Appends (inferred) a fresh table for `[first, second]` with every glyph default. Earlier ranges still win the lookup for the codes they cover, the new range serves only codes that were not covered before, and no other field changes. |
| `Fonts.Font.AddHideCodePointRange` | MyGUIEngine/include/MyGUI_Font.h:151 | Appends (inferred) `[first, second]` to the hidden ranges. No other field changes. |
| `Fonts.Font.CheckHidePointCode` | MyGUIEngine/include/MyGUI_Font.h:153-154 | `checkHidePointCode` (inferred) is true exactly when some hidden range contains the code. |
| `Fonts.Font.ClearCodePointRanges` | MyGUIEngine/include/MyGUI_Font.h:156-157 | Empties (inferred) the list of glyph ranges, so no glyph pointer points into the font any more. The hidden ranges, the manual glyphs and the configuration stay as they are. |
| `Fonts.Font.AddGlyph` | MyGUIEngine/include/MyGUI_Font.h:202 | The public `addGlyph` (inferred) appends the code and rectangle to the manual glyphs. No other field changes. |
| `Fonts.Font.SetSource` | MyGUIEngine/include/MyGUI_Font.h:163-164 | `getSource` returns the new value. No other field changes. |
| `Fonts.Font.SetTrueTypeSize` | MyGUIEngine/include/MyGUI_Font.h:166-167 | `getTrueTypeSize` returns the new value. No other field changes. |
| `Fonts.Font.SetTrueTypeResolution` | MyGUIEngine/include/MyGUI_Font.h:169-170 | `getTrueTypeResolution` returns the new value, and `isTrueType` holds exactly when that value is non-zero. No other field changes. |
| `Fonts.Font.SetAntialiasColour` | MyGUIEngine/include/MyGUI_Font.h:172-173 | `getAntialiasColour` returns the new value. No other field changes. |
| `Fonts.Font.SetDefaultHeight` | MyGUIEngine/include/MyGUI_Font.h:176-177 | `getDefaultHeight` returns the new value. No other field changes. |
| `Fonts.Font.SetSpaceWidth` | MyGUIEngine/include/MyGUI_Font.h:183-184 | `getSpaceWidth` returns the new value. No other field changes. |
| `Fonts.Font.SetTabWidth` | MyGUIEngine/include/MyGUI_Font.h:187-188 | `getTabWidth` returns the new value. No other field changes. |
| `Fonts.Font.SetCursorWidth` | MyGUIEngine/include/MyGUI_Font.h:191-192 | `getCursorWidth` returns the new value. No other field changes. |
| `Fonts.Font.SetDistance` | MyGUIEngine/include/MyGUI_Font.h:195-196 | `getDistance` returns the new value. No other field changes. |
| `Fonts.Font.SetOffsetHeight` | MyGUIEngine/include/MyGUI_Font.h:199-200 | `getOffsetHeight` returns the new value. No other field changes. |
| `Fonts.Font.GetSpaceGlyphInfo` | MyGUIEngine/include/MyGUI_Font.h:142 | Reads the space glyph field. What it returns after each setter is stated by that setter; the synthetic glyphs are default glyphs after construction. |
| `Fonts.Font.GetTabGlyphInfo` | MyGUIEngine/include/MyGUI_Font.h:143 | Reads the tab glyph field. What it returns after each setter is stated by that setter; the synthetic glyphs are default glyphs after construction. |
| `Fonts.Font.GetSelectGlyphInfo` | MyGUIEngine/include/MyGUI_Font.h:144 | Reads the selection glyph field. What it returns after each setter is stated by that setter; the synthetic glyphs are default glyphs after construction. |
| `Fonts.Font.GetSelectDeactiveGlyphInfo` | MyGUIEngine/include/MyGUI_Font.h:145 | Reads the inactive-selection glyph field. What it returns after each setter is stated by that setter; the synthetic glyphs are default glyphs after construction. |
| `Fonts.Font.GetCursorGlyphInfo` | MyGUIEngine/include/MyGUI_Font.h:146 | Reads the cursor glyph field. What it returns after each setter is stated by that setter; the synthetic glyphs are default glyphs after construction. |
| `Fonts.Font.GetName` | MyGUIEngine/include/MyGUI_Font.h:161 | Reads the name. What it returns after each setter is stated by that setter. |
| `Fonts.Font.GetSource` | MyGUIEngine/include/MyGUI_Font.h:164 | Reads the source. What it returns after each setter is stated by that setter. |
| `Fonts.Font.GetTrueTypeSize` | MyGUIEngine/include/MyGUI_Font.h:167 | Reads the point size. What it returns after each setter is stated by that setter. |
| `Fonts.Font.GetTrueTypeResolution` | MyGUIEngine/include/MyGUI_Font.h:170 | Reads the resolution. What it returns after each setter is stated by that setter. |
| `Fonts.Font.GetAntialiasColour` | MyGUIEngine/include/MyGUI_Font.h:173 | Reads the antialiasing flag. What it returns after each setter is stated by that setter. |
| `Fonts.Font.GetDefaultHeight` | MyGUIEngine/include/MyGUI_Font.h:176 | Reads the default height. What it returns after each setter is stated by that setter. |
| `Fonts.Font.GetHeightPix` | MyGUIEngine/include/MyGUI_Font.h:180 | Reads the generated pixel height. What it returns after each setter is stated by that setter. |
| `Fonts.Font.GetSpaceWidth` | MyGUIEngine/include/MyGUI_Font.h:183 | Reads the space width. What it returns after each setter is stated by that setter. |
| `Fonts.Font.GetTabWidth` | MyGUIEngine/include/MyGUI_Font.h:187 | Reads the tab width. What it returns after each setter is stated by that setter. |
| `Fonts.Font.GetCursorWidth` | MyGUIEngine/include/MyGUI_Font.h:191 | Reads the cursor width. What it returns after each setter is stated by that setter. |
| `Fonts.Font.GetDistance` | MyGUIEngine/include/MyGUI_Font.h:195 | Reads the glyph distance. What it returns after each setter is stated by that setter. |
| `Fonts.Font.GetOffsetHeight` | MyGUIEngine/include/MyGUI_Font.h:199 | Reads the vertical offset. What it returns after each setter is stated by that setter. |
| `Fonts.Font.IsTrueType` | MyGUIEngine/include/MyGUI_Font.h:204 | The header's expression `resolution != 0`. `Fonts.Font.SetTrueTypeResolution` states that it holds exactly when the resolution set is non-zero, and every other setter leaves the resolution alone. |
| `Fonts.OverlappingRangesFirstWins` | MyGUIEngine/include/MyGUI_Font.h:148-150 | After registering `[0x30, 0x39]` and then `[0x35, 0x44]`, the lookup of 0x37 points into the earlier table, at slot 7. |
| `Fonts.HiddenRangesSurviveClear` | MyGUIEngine/include/MyGUI_Font.h:150-157 | With (inferred clear semantics) range `[0x41, 0x5A]` and hidden range `[0x41, 0x41]`, 0x41 is hidden and 0x42 is not. After the ranges are cleared, 0x41 is still hidden and its lookup finds nothing. |

## Left out

- `loadResource`, `loadResourceTrueType`, `initialise` and `checkTexture` (`MyGUI_Font.h:206`, `:211-215`): they drive an external render resource, a texture and a TrueType rasterizer, and their bodies are not part of this model.
- The atlas packing (`addRange` with width, height and aspect, `:212`) and the private `addGlyph` that fills a glyph's UV rectangle (`:209`): they compute float UVs and aspect ratios, and their bodies are not part of this model. Sorting the manual glyphs by code (the use `operator <` suggests) and converting them to UVs happen in that code too.
- `getTextureFont` and `mTexture`: a non-owning pointer to an externally managed texture.
- `IManualResourceLoader`, the destructor and the `constCodePoints` enumeration: no behaviour is visible for them.
- Floats (`mTtfSize`, `aspectRatio`, `FloatRect`) are modelled as `real` values that are stored and returned. No float arithmetic is modelled.
- Writes into the five synthetic glyphs through `getSpaceGlyphInfo` and the other synthetic-glyph getters are not modelled. Those getters hand out writable pointers, so any caller could write through them; the model reads the fields and offers no write.
- `Fonts.Font.AddGlyph` appends and keeps duplicate codes. Whether or where duplicates are resolved is not visible in the header, so the model states no rule for them.
- `Fonts.Font.constructor`: the constructor body is in `MyGUI_Font.cpp`, which is not part of this model. The empty lists and the default synthetic glyphs follow from the default construction of those members; the body might still change them, and the initial values of the scalar fields are not stated at all.
- `Fonts.Font.GetGlyphInfo`: a miss is assumed to return null (None), as the `getInfo` comment does for one table. The implementation in `MyGUI_Font.cpp` may instead return a fallback glyph, such as the space glyph; `Fonts.HiddenRangesSurviveClear` relies on the same assumption.
- `Fonts.Font.ClearCodePointRanges`: the tables are held by reference in the model, while the source stores them by value, so a pointer handed out before a clear dangles in the source, and one handed out before an `addCodePointRange` that reallocates the vector may dangle, depending on whether the tables are copied or moved. The model only states that such a pointer no longer points into the font (`Points`); it does not forbid writing through it. The model also assumes that the clear leaves the hidden ranges (`mVectorHideCodePoint`) alone; the header's doc comment speaks only of clearing a list of code-point ranges, which fits that list of `PairCodePoint` ranges as well, and `Fonts.HiddenRangesSurviveClear` relies on the assumption.
- `Glyphs.RangeInfo.constructor` requires `first <= last`. The header does not check this. For `last == first - 1` the size comes out exactly 0, an empty and harmless table, which the requirement also excludes; for `last < first - 1` the 32-bit size wraps around to 2^32 - (first - last - 1), between 2 and 2^32 - 1 (see `Glyphs.AsWrittenRangeSize`). For the full range `[0, 0xFFFFFFFF]` the model uses the corrected size 2^32 rather than the wrapped size 0 (see Findings).
- `Fonts.Font.AddCodePointRange` carries the same `first <= second` requirement as the table constructor, for the same reason.
- `Fonts.Font.AddHideCodePointRange` needs no requirement, because a reversed hidden range just contains no code.
- `Char` is taken as a 32-bit unsigned integer. `MyGUI_Types.h` is not part of this model.
- `Glyphs.DefaultGlyphInfo`: the all-zero `uvRect` comes from the default constructor of `FloatRect`, which lives in a header that is not part of this model; it is assumed to zero all four fields.

## Findings

| source | as written | input that shows it | evidently intended | confidence | as-written member | corrected member |
|---|---|---|---|---|---|---|
| MyGUIEngine/include/MyGUI_Font.h:93 | The table is sized with `last - first + 1` in 32-bit unsigned `Char` arithmetic. For the range covering every code this wraps to 0, yet the membership test accepts every code, so `getInfo(0)` points past the end of an empty table. | `RangeInfo(0, 0xFFFFFFFF)`, then `getInfo(0)` | one slot per code of `[first, last]`, so that every slot `getInfo` hands out is inside the table | medium, not executed; assumes `Char` is a 32-bit unsigned integer | `Glyphs.FullRangeTableIsEmptyAsWritten` | `Glyphs.RangeInfo.GetInfo`, `Glyphs.RangeInfo.constructor` |
