/**
 * The `RGB` struct of the colour utilities: a 24-bit colour packed into a
 * C# `int` as 0xRRGGBB, and the `+`-based packing used by the random colour
 * generator.
 *
 * A C# `int` is modelled by its 32 bits (`bv32`, two's complement). C#'s `&`,
 * `|`, `<<` and `>>` on `int` are then the bit-vector operations (arithmetic
 * and logical `>>` agree here, because every shifted operand has been masked
 * to a non-negative value first), and C#'s unchecked `+` is the wrapping
 * `bv32` addition. Comparisons between bit patterns are unsigned, so
 * `x <= 0xFF` says that the `int` `x` lies in 0..255.
 */
module ColorUtils {

  /** A C# `int` as its 32 bits. */
  type Int32 = bv32

  /** One colour channel: an `int` in 0..255. */
  predicate IsChannel(x: Int32) {
    x <= 0xFF
  }

  /** The `RGB` struct: three `int` channels, each meant to be in 0..255. */
  datatype RGB = RGB(R: Int32, G: Int32, B: Int32)

  predicate InRange(c: RGB) {
    IsChannel(c.R) && IsChannel(c.G) && IsChannel(c.B)
  }

  /** The constructor `RGB(int rgb)`: bits 16..23, 8..15 and 0..7 of `rgb`. */
  function FromInt(rgb: Int32): (c: RGB)
    ensures InRange(c)
  {
    RGB((rgb & 0xFF_0000) >> 16, (rgb & 0xFF00) >> 8, rgb & 0xFF)
  }

  /** `RGB.ToInt`: the channels or-ed together at bit offsets 16, 8 and 0. */
  function ToInt(c: RGB): (x: Int32)
    ensures InRange(c) ==> x <= 0xFF_FFFF
  {
    (c.R << 16) | (c.G << 8) | c.B
  }

  /**
   * The packing written inline in `RandomColor`:
   * `(color.R << 16) + (color.G << 8) + color.B`, with C#'s wrapping addition.
   */
  function PackSum(c: RGB): Int32 {
    (c.R << 16) + (c.G << 8) + c.B
  }

  /** Decoding then encoding keeps exactly the low 24 bits of any `int`. */
  lemma ToIntFromInt(x: Int32)
    ensures ToInt(FromInt(x)) == x & 0xFF_FFFF
  {
  }

  /** Encoding then decoding gives back every colour whose channels are in range. */
  lemma FromIntToInt(c: RGB)
    requires InRange(c)
    ensures FromInt(ToInt(c)) == c
  {
  }

  /** For channels in range the `+`-based packing and `ToInt` agree. */
  lemma PackSumIsToInt(c: RGB)
    requires InRange(c)
    ensures PackSum(c) == ToInt(c)
  {
  }

  /** Out of range the two packings differ: a blue channel of 256 carries into green only under `+`. */
  lemma PackSumDiffersOutOfRange()
    ensures var c := RGB(0, 1, 256); !InRange(c) && PackSum(c) != ToInt(c)
  {
  }
}
