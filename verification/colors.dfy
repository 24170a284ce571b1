/**
 * Colours and image pixels.
 *
 * `java.awt.Color` and `Util.blend` are kept opaque: a colour is either a plain RGB
 * triple or the (unevaluated) blend of two colours at a fraction.
 */
module Colors {

  datatype Color =
    | Rgb(red: int, green: int, blue: int)
    | Blend(from: Color, to: Color, frac: real)

  const BLACK: Color := Rgb(0, 0, 0)
  const WHITE: Color := Rgb(255, 255, 255)
  const GRAY: Color := Rgb(128, 128, 128)
  const BLUE: Color := Rgb(0, 0, 255)
  const ORANGE: Color := Rgb(255, 200, 0)
  const RED: Color := Rgb(255, 0, 0)

  /**
   * One pixel of a snapshot's image. An exterior pixel records the escape count and the
   * squared modulus it escaped with: the source turns these two numbers into a smoothed
   * palette colour with a logarithm, which this model does not evaluate.
   */
  datatype Paint =
    | Solid(color: Color)
    | Shaded(iter: nat, modulus2: real)
}
