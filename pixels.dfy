/**
 * Pixels and images.  A texture of the source is a row-major grid of RGB
 * float triples; here a channel is a `real` and a texture is an `array2`
 * indexed `[row, column]`, as `Texture(y, x)` is in the source.
 */
module Pixels {

  datatype Rgb = Rgb(r: real, g: real, b: real)

  /** The value a freshly allocated texture holds. */
  const Black := Rgb(0.0, 0.0, 0.0)

  function Sub(p: Rgb, q: Rgb): Rgb {
    Rgb(p.r - q.r, p.g - q.g, p.b - q.b)
  }

  function AbsReal(v: real): real {
    if v < 0.0 then -v else v
  }

  /** Channel-wise absolute value. */
  function Abs(p: Rgb): Rgb {
    Rgb(AbsReal(p.r), AbsReal(p.g), AbsReal(p.b))
  }

  /** Luminance: a fixed linear projection of an RGB triple (Rec. 709 weights). */
  function Lum(p: Rgb): real {
    0.2126 * p.r + 0.7152 * p.g + 0.0722 * p.b
  }

  function Sqr(v: real): (s: real)
    ensures s >= 0.0
  {
    v * v
  }

  /** Pointwise error of the overlap metric: the squared luminance of the difference. */
  function MetricError(p: Rgb, q: Rgb): (e: real)
    ensures e >= 0.0
    ensures p == q ==> e == 0.0
  {
    Sqr(Lum(Sub(p, q)))
  }

  /** Pointwise error of the seam: the squared luminance of the channel-wise absolute difference. */
  function SeamError(p: Rgb, q: Rgb): (e: real)
    ensures e >= 0.0
    ensures p == q ==> e == 0.0
  {
    Sqr(Lum(Abs(Sub(p, q))))
  }

  /**
   * Every pixel of the w-by-h window with top-left corner (x, y) lies inside
   * the image (an empty window reads nothing, so it always does).
   */
  predicate Within(img: array2<Rgb>, x: int, y: int, w: nat, h: nat) {
    w == 0 || h == 0 || (0 <= x && 0 <= y && x + w <= img.Length1 && y + h <= img.Length0)
  }

}
