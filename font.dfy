/** The font: its scalar configuration, its five synthetic glyphs, and its
    three independent lists (glyph ranges, hidden code-point ranges, manually
    placed glyphs). */
module Fonts {
  import opened FontTypes
  import opened CodePoints
  import opened Glyphs

  /** Where `getGlyphInfo` points: slot `slot` of the table of `block`. */
  datatype GlyphPtr = GlyphPtr(block: RangeInfo, slot: nat)

  /** The intervals of a list of range tables, in the same order. */
  function Intervals(rs: seq<RangeInfo>): (ps: seq<PairCodePoint>)
    ensures |ps| == |rs|
    ensures forall i :: 0 <= i < |rs| ==> ps[i] == rs[i].Interval()
    ensures forall code: Char :: AnyContains(ps, code) <==> exists i :: 0 <= i < |rs| && rs[i].IsExist(code)
  {
    seq(|rs|, i requires 0 <= i < |rs| => rs[i].Interval())
  }

  /** Every field of a font, as one value: the setters below are stated as
      "this one field changes, nothing else does". */
  datatype FontState = FontState(
    name: string, source: string, ttfSize: real, ttfResolution: Uint32,
    antialiasColour: bool, defaultHeight: Int32, heightPix: Int32,
    spaceWidth: Int32, tabWidth: Int32, cursorWidth: Int32, distance: Int32,
    offsetHeight: Int32,
    spaceGlyph: GlyphInfo, tabGlyph: GlyphInfo, selectGlyph: GlyphInfo,
    selectDeactiveGlyph: GlyphInfo, cursorGlyph: GlyphInfo,
    hideCodePoints: seq<PairCodePoint>, pairCodeCoords: seq<PairCodeCoord>,
    rangeInfos: seq<RangeInfo>)

  class Font {
    /** Source of the font: an image name or a TrueType font. */
    var source: string
    /** Size of the TrueType font, in points. */
    var ttfSize: real
    /** Resolution (dpi) of the TrueType font; 0 means an image font. */
    var ttfResolution: Uint32
    var distance: Int32
    var spaceWidth: Int32
    var tabWidth: Int32
    var cursorWidth: Int32
    var offsetHeight: Int32
    var defaultHeight: Int32
    /** The height in pixels the generated glyphs came out with. */
    var heightPix: Int32

    var spaceGlyph: GlyphInfo
    var tabGlyph: GlyphInfo
    var selectGlyph: GlyphInfo
    var selectDeactiveGlyph: GlyphInfo
    var cursorGlyph: GlyphInfo

    /** Code points that are not to be drawn. */
    var hideCodePoints: seq<PairCodePoint>
    /** Glyphs placed by hand. */
    var pairCodeCoords: seq<PairCodeCoord>
    /** All glyph tables, in registration order. */
    var rangeInfos: seq<RangeInfo>

    /** For TrueType fonts only. */
    var antialiasColour: bool
    const name: string

    /** Every registered glyph table is well formed, and each table owns its
        glyph array, as the source holds the tables by value. */
    predicate Valid()
      reads this
    {
      && (forall i :: 0 <= i < |rangeInfos| ==> rangeInfos[i].Valid())
      && (forall i, j :: 0 <= i < j < |rangeInfos| ==> rangeInfos[i].range != rangeInfos[j].range)
    }

    /** Whether `p` points into a glyph table the font currently holds. A
        pointer into a table the font no longer holds is dangling in the
        source, since the tables are stored by value. */
    predicate Points(p: GlyphPtr)
      reads this
    {
      p.block in rangeInfos && p.slot < p.block.range.Length
    }

    ghost function State(): (s: FontState)
      reads this
    {
      FontState(name, source, ttfSize, ttfResolution, antialiasColour,
        defaultHeight, heightPix, spaceWidth, tabWidth, cursorWidth, distance,
        offsetHeight, spaceGlyph, tabGlyph, selectGlyph, selectDeactiveGlyph,
        cursorGlyph, hideCodePoints, pairCodeCoords, rangeInfos)
    }

    /** A new font with the given name, no ranges, hidden ranges or manual
        glyphs, and default-constructed synthetic glyphs. */
    constructor (name: string)
      ensures Valid() && this.name == name
      ensures rangeInfos == [] && hideCodePoints == [] && pairCodeCoords == []
      ensures spaceGlyph == tabGlyph == selectGlyph == selectDeactiveGlyph == cursorGlyph == DefaultGlyphInfo()
    {
      this.name := name;
      spaceGlyph, tabGlyph, selectGlyph := DefaultGlyphInfo(), DefaultGlyphInfo(), DefaultGlyphInfo();
      selectDeactiveGlyph, cursorGlyph := DefaultGlyphInfo(), DefaultGlyphInfo();
      rangeInfos := [];
      hideCodePoints := [];
      pairCodeCoords := [];
    }

    function GetSpaceGlyphInfo(): (r: GlyphInfo) reads this { spaceGlyph }
    function GetTabGlyphInfo(): (r: GlyphInfo) reads this { tabGlyph }
    function GetSelectGlyphInfo(): (r: GlyphInfo) reads this { selectGlyph }
    function GetSelectDeactiveGlyphInfo(): (r: GlyphInfo) reads this { selectDeactiveGlyph }
    function GetCursorGlyphInfo(): (r: GlyphInfo) reads this { cursorGlyph }

    /** `getGlyphInfo`: scans the glyph tables in registration order and
        points into the first one whose range contains `id`, at the slot of
        `id`; None when no range contains it. */
    method GetGlyphInfo(id: Char) returns (r: Option<GlyphPtr>)
      requires Valid()
      ensures r.None? <==> !AnyContains(Intervals(rangeInfos), id)
      ensures r.Some? ==>
        var k := FirstContaining(Intervals(rangeInfos), id).value;
        r.value.block == rangeInfos[k] && r.value.block.GetInfo(id) == Some(r.value.slot)
      ensures r.Some? ==> Points(r.value)
    {
      var i := 0;
      while i < |rangeInfos|
        invariant 0 <= i <= |rangeInfos|
        invariant forall j :: 0 <= j < i ==> !rangeInfos[j].IsExist(id)
      {
        var info := rangeInfos[i].GetInfo(id);
        if info.Some? {
          return Some(GlyphPtr(rangeInfos[i], info.value));
        }
        i := i + 1;
      }
      return None;
    }

    /** `addCodePointRange`: appends a fresh table for `[first, second]`, every
        slot a default glyph. Nothing else changes. */
    method AddCodePointRange(first: Char, second: Char)
      requires Valid()
      requires first <= second
      modifies this
      ensures Valid()
      ensures |rangeInfos| == |old(rangeInfos)| + 1
      ensures rangeInfos[..|old(rangeInfos)|] == old(rangeInfos)
      ensures var ri := rangeInfos[|old(rangeInfos)|];
        fresh(ri) && fresh(ri.range) && ri.first == first && ri.last == second &&
        forall code: Char :: ri.IsExist(code) ==> ri.Glyph(code) == Some(DefaultGlyphInfo())
      ensures State() == old(State()).(rangeInfos := rangeInfos)
      ensures forall code: Char ::
                FirstContaining(Intervals(rangeInfos), code) ==
                if AnyContains(Intervals(old(rangeInfos)), code) then FirstContaining(Intervals(old(rangeInfos)), code)
                else if first <= code <= second then Some(|old(rangeInfos)|)
                else None
    {
      var ri := new RangeInfo(first, second);
      ghost var before := Intervals(rangeInfos);
      rangeInfos := rangeInfos + [ri];
      assert Intervals(rangeInfos) == before + [ri.Interval()];
      forall code: Char
        ensures FirstContaining(Intervals(rangeInfos), code) ==
          if AnyContains(before, code) then FirstContaining(before, code)
          else if first <= code <= second then Some(|before|)
          else None
      {
        FirstContainingAppend(before, ri.Interval(), code);
      }
    }

    /** `addHideCodePointRange`: appends `[first, second]` to the hidden
        ranges. Nothing else changes. */
    method AddHideCodePointRange(first: Char, second: Char)
      modifies this
      ensures State() == old(State()).(hideCodePoints := old(hideCodePoints) + [PairCodePoint(first, second)])
    {
      hideCodePoints := hideCodePoints + [PairCodePoint(first, second)];
    }

    /** `checkHidePointCode`: whether `id` lies in some hidden range. */
    method CheckHidePointCode(id: Char) returns (hidden: bool)
      ensures hidden <==> exists i :: 0 <= i < |hideCodePoints| && hideCodePoints[i].IsExist(id)
    {
      var i := 0;
      while i < |hideCodePoints|
        invariant 0 <= i <= |hideCodePoints|
        invariant forall j :: 0 <= j < i ==> !hideCodePoints[j].IsExist(id)
      {
        if hideCodePoints[i].IsExist(id) {
          return true;
        }
        i := i + 1;
      }
      return false;
    }

    /** `clearCodePointRanges`: empties the list of glyph tables, so no
        pointer handed out before points into the font any more. The hidden
        ranges and the manual glyphs stay as they are. */
    method ClearCodePointRanges()
      modifies this
      ensures Valid()
      ensures State() == old(State()).(rangeInfos := [])
      ensures forall p: GlyphPtr :: !Points(p)
    {
      rangeInfos := [];
    }

    /** The public `addGlyph`: records a manually placed glyph. */
    method AddGlyph(index: Char, coord: IntCoord)
      modifies this
      ensures State() == old(State()).(pairCodeCoords := old(pairCodeCoords) + [PairCodeCoord(index, coord)])
    {
      pairCodeCoords := pairCodeCoords + [PairCodeCoord(index, coord)];
    }

    function GetName(): (r: string) reads this { name }

    method SetSource(newSource: string)
      modifies this
      ensures GetSource() == newSource
      ensures State() == old(State()).(source := newSource)
    {
      source := newSource;
    }
    function GetSource(): (r: string) reads this { source }

    method SetTrueTypeSize(size: real)
      modifies this
      ensures GetTrueTypeSize() == size
      ensures State() == old(State()).(ttfSize := size)
    {
      ttfSize := size;
    }
    function GetTrueTypeSize(): (r: real) reads this { ttfSize }

    /** Setting the resolution decides whether the font is a TrueType font. */
    method SetTrueTypeResolution(resolution: Uint32)
      modifies this
      ensures GetTrueTypeResolution() == resolution
      ensures IsTrueType() <==> resolution != 0
      ensures State() == old(State()).(ttfResolution := resolution)
    {
      ttfResolution := resolution;
    }
    function GetTrueTypeResolution(): (r: Uint32) reads this { ttfResolution }

    method SetAntialiasColour(enabled: bool)
      modifies this
      ensures GetAntialiasColour() == enabled
      ensures State() == old(State()).(antialiasColour := enabled)
    {
      antialiasColour := enabled;
    }
    function GetAntialiasColour(): (r: bool) reads this { antialiasColour }

    function GetDefaultHeight(): (r: Int32) reads this { defaultHeight }
    method SetDefaultHeight(height: Int32)
      modifies this
      ensures GetDefaultHeight() == height
      ensures State() == old(State()).(defaultHeight := height)
    {
      defaultHeight := height;
    }

    function GetHeightPix(): (r: Int32) reads this { heightPix }

    function GetSpaceWidth(): (r: Int32) reads this { spaceWidth }
    method SetSpaceWidth(width: Int32)
      modifies this
      ensures GetSpaceWidth() == width
      ensures State() == old(State()).(spaceWidth := width)
    {
      spaceWidth := width;
    }

    function GetTabWidth(): (r: Int32) reads this { tabWidth }
    method SetTabWidth(width: Int32)
      modifies this
      ensures GetTabWidth() == width
      ensures State() == old(State()).(tabWidth := width)
    {
      tabWidth := width;
    }

    function GetCursorWidth(): (r: Int32) reads this { cursorWidth }
    method SetCursorWidth(width: Int32)
      modifies this
      ensures GetCursorWidth() == width
      ensures State() == old(State()).(cursorWidth := width)
    {
      cursorWidth := width;
    }

    function GetDistance(): (r: Int32) reads this { distance }
    method SetDistance(dist: Int32)
      modifies this
      ensures GetDistance() == dist
      ensures State() == old(State()).(distance := dist)
    {
      distance := dist;
    }

    function GetOffsetHeight(): (r: Int32) reads this { offsetHeight }
    method SetOffsetHeight(height: Int32)
      modifies this
      ensures GetOffsetHeight() == height
      ensures State() == old(State()).(offsetHeight := height)
    {
      offsetHeight := height;
    }

    /** `isTrueType`: a font with a non-zero resolution is a TrueType font. */
    predicate IsTrueType()
      reads this
    {
      ttfResolution != 0
    }
  }

  /** Two overlapping ranges, `[0x30, 0x39]` registered before `[0x35, 0x44]`:
      the code 0x37, in both, is found in the earlier table, at slot 7. */
  method OverlappingRangesFirstWins() returns (r: Option<GlyphPtr>, earlier: RangeInfo, later: RangeInfo)
    ensures earlier != later
    ensures earlier.first == 0x30 && earlier.last == 0x39 && later.first == 0x35 && later.last == 0x44
    ensures r == Some(GlyphPtr(earlier, 7))
  {
    var font := new Font("overlap");
    font.AddCodePointRange(0x30, 0x39);
    font.AddCodePointRange(0x35, 0x44);
    earlier, later := font.rangeInfos[0], font.rangeInfos[1];
    r := font.GetGlyphInfo(0x37);
  }

  /** A glyph range `[0x41, 0x5A]` with the hidden range `[0x41, 0x41]`:
      0x41 is hidden and 0x42 is not; clearing the glyph ranges leaves 0x41
      hidden, and its lookup then finds nothing. */
  method HiddenRangesSurviveClear() returns (hiddenBefore: bool, shownHidden: bool, hiddenAfter: bool, found: Option<GlyphPtr>)
    ensures hiddenBefore && !shownHidden && hiddenAfter && found.None?
  {
    var font := new Font("hidden");
    font.AddCodePointRange(0x41, 0x5A);
    font.AddHideCodePointRange(0x41, 0x41);
    assert font.hideCodePoints == [PairCodePoint(0x41, 0x41)];
    assert font.hideCodePoints[0].IsExist(0x41);
    hiddenBefore := font.CheckHidePointCode(0x41);
    shownHidden := font.CheckHidePointCode(0x42);
    font.ClearCodePointRanges();
    assert font.hideCodePoints == [PairCodePoint(0x41, 0x41)];
    hiddenAfter := font.CheckHidePointCode(0x41);
    found := font.GetGlyphInfo(0x41);
  }
}
