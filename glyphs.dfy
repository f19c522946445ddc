/** Glyph records and the dense per-range glyph table (`RangeInfo`). */
module Glyphs {
  import opened FontTypes
  import opened CodePoints

  /** One glyph: its code point, its rectangle on the texture in normalised
      coordinates and its width-to-height ratio. The three-argument
      constructor of the record is the datatype constructor. */
  datatype GlyphInfo = GlyphInfo(codePoint: Char, uvRect: FloatRect, aspectRatio: real)

  /** The default-constructed record: code point 0, an all-zero rectangle and
      aspect ratio 1. It stands for "no glyph has been written here". */
  function DefaultGlyphInfo(): (g: GlyphInfo)
    ensures g.codePoint == 0 && g.aspectRatio == 1.0
    ensures g.uvRect == FloatRect(0.0, 0.0, 0.0, 0.0)
  {
    GlyphInfo(0, FloatRect(0.0, 0.0, 0.0, 0.0), 1.0)
  }

  /** A code-point range with one glyph slot per code point: the glyph of
      `code` lives at index `code - first` of `range`. */
  class RangeInfo {
    const first: Char
    const last: Char
    const range: array<GlyphInfo>

    /** The table has exactly one slot per code point of `[first, last]`. */
    predicate Valid() {
      first <= last && range.Length == last - first + 1
    }

    /** The interval this table covers. */
    function Interval(): (p: PairCodePoint)
      ensures forall code: Char :: p.IsExist(code) <==> IsExist(code)
    {
      PairCodePoint(first, last)
    }

    /** Sizes the table to `last - first + 1` slots, each a default glyph. */
    constructor (first: Char, last: Char)
      requires first <= last
      ensures this.first == first && this.last == last
      ensures Valid() && fresh(range)
      ensures forall code: Char :: IsExist(code) ==> Glyph(code) == Some(DefaultGlyphInfo())
    {
      this.first := first;
      this.last := last;
      range := new GlyphInfo[last - first + 1](_ => DefaultGlyphInfo());
    }

    /** Whether `code` lies in `[first, last]`. Only a non-reversed range
        contains a code, and the slot of a contained code is inside a
        well-formed table. */
    predicate IsExist(code: Char)
      ensures IsExist(code) ==> first <= last
      ensures IsExist(code) && Valid() ==> code - first < range.Length
    {
      code >= first && code <= last
    }

    /** `getInfo`: the slot of `code`, or None when the code is outside the
        range. Every slot it returns is a valid index of `range`, and the slot
        determines the code it was asked for. */
    function GetInfo(code: Char): (r: Option<nat>)
      requires Valid()
      ensures r.Some? <==> IsExist(code)
      ensures r.Some? ==> r.value < range.Length && first + r.value == code
    {
      if IsExist(code) then Some(code - first) else None
    }

    /** The glyph stored for `code`, read through `GetInfo`. */
    function Glyph(code: Char): (r: Option<GlyphInfo>)
      requires Valid()
      reads range
    {
      match GetInfo(code)
      case None => None
      case Some(slot) => Some(range[slot])
    }

    /** Writes `g` through the pointer `GetInfo(code)` returns, when it is not
        null. Only the glyph of `code` changes: every other code of the range
        keeps its glyph. */
    method Store(code: Char, g: GlyphInfo) returns (stored: bool)
      requires Valid()
      modifies range
      ensures stored <==> IsExist(code)
      ensures forall c: Char :: IsExist(c) ==>
        Glyph(c) == if stored && c == code then Some(g) else old(Glyph(c))
    {
      var slot := GetInfo(code);
      stored := slot.Some?;
      if stored {
        range[slot.value] := g;
      }
    }
  }

  /** Distinct codes of a range have distinct slots, and every slot is the slot
      of exactly one code of the range: `GetInfo` is a bijection between
      `[first, last]` and the indices of `range`. */
  lemma SlotsAreOneToOne(ri: RangeInfo, a: Char, b: Char, slot: nat)
    requires ri.Valid()
    ensures ri.GetInfo(a).Some? && ri.GetInfo(a) == ri.GetInfo(b) ==> a == b
    ensures slot < ri.range.Length ==>
      ri.first + slot < CHAR_LIMIT && ri.GetInfo(ri.first + slot) == Some(slot)
  {
  }

  /** The table size the header computes, `last - first + 1`, in 32-bit
      unsigned arithmetic. It is exact whenever the exact size fits in 32 bits;
      the full range `[0, 0xFFFF_FFFF]` wraps to 0, and a reversed range with
      `last < first - 1` wraps to 2^32 - (first - last - 1), between 2 and
      2^32 - 1. */
  function AsWrittenRangeSize(first: Char, last: Char): (n: nat)
    ensures n < CHAR_LIMIT
    ensures 0 <= last - first + 1 < CHAR_LIMIT ==> n == last - first + 1
    ensures last - first + 1 == CHAR_LIMIT ==> n == 0
    ensures last - first + 1 < 0 ==> n == CHAR_LIMIT + (last - first + 1) && 2 <= n
  {
    (last - first + 1) % CHAR_LIMIT
  }

  /** The range covering every code point, `[0, 0xFFFF_FFFF]`, gets a table of
      size 0 as written, although every code (0 included) passes the
      membership test, so the pointer handed out for code 0 is past the end. */
  lemma FullRangeTableIsEmptyAsWritten()
    ensures PairCodePoint(0, 0xFFFF_FFFF).IsExist(0)
    ensures AsWrittenRangeSize(0, 0xFFFF_FFFF) == 0
  {
  }
}
