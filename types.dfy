/** Scalar and geometry types the font header uses: the unsigned code-point type
    `Char`, the 32-bit `int` and `uint` of its configuration fields, and the two
    rectangle types its glyph records carry. */
module FontTypes {

  /** `Char` is a 32-bit unsigned code point. */
  const CHAR_LIMIT: int := 0x1_0000_0000
  type Char = x: int | 0 <= x < CHAR_LIMIT

  /** The 32-bit `uint` of the TrueType resolution. */
  type Uint32 = x: int | 0 <= x < 0x1_0000_0000

  /** The 32-bit signed `int` of the pixel-valued configuration fields. */
  type Int32 = x: int | -0x8000_0000 <= x < 0x8000_0000

  datatype Option<+T> = None | Some(value: T)

  /** A rectangle in normalised texture coordinates. `float` is modelled by
      `real`: the model stores and returns these values and computes none. */
  datatype FloatRect = FloatRect(left: real, top: real, right: real, bottom: real)

  /** A rectangle in texture pixels: position and size. */
  datatype IntCoord = IntCoord(left: Int32, top: Int32, width: Int32, height: Int32)
}
