/** A decoded raster image as the wall detector sees it: a width, a height
    and a row-major buffer of RGBA pixels, one byte per channel. Decoding
    the uploaded file into this form is done by the image library and is
    not part of this model. */
module Raster {

  /** One channel value on the 0..255 scale. */
  type Byte = b: int | 0 <= b < 256

  datatype Pixel = Pixel(r: Byte, g: Byte, b: Byte, a: Byte)

  /** The bitmap in row-major order: rows[y][x] is pixel (x, y). */
  datatype Image = Image(width: nat, height: nat, rows: seq<seq<Pixel>>) {

    /** A decoded bitmap holds `height` rows of `width` pixels each. */
    predicate Valid() {
      |rows| == height && forall y :: 0 <= y < |rows| ==> |rows[y]| == width
    }

    function At(x: nat, y: nat): Pixel
      requires Valid() && x < width && y < height
    {
      rows[y][x]
    }
  }

  /** A channel value at or above this counts as white. */
  const WhiteThreshold: Byte := 240

  /** The "not white" test of the detector: any one of red, green or blue
      below the threshold. Alpha is not consulted. */
  predicate IsForeground(p: Pixel) {
    p.r < WhiteThreshold || p.g < WhiteThreshold || p.b < WhiteThreshold
  }

  /** The darkest of the three colour channels. */
  function DarkestChannel(p: Pixel): (c: Byte)
    ensures c <= p.r && c <= p.g && c <= p.b
    ensures c == p.r || c == p.g || c == p.b
  {
    if p.r <= p.g && p.r <= p.b then p.r
    else if p.g <= p.b then p.g
    else p.b
  }

  /** The per-channel OR is the same test as "the darkest colour channel is
      below the threshold", and the alpha byte never changes the outcome. */
  lemma ForegroundIffDarkestBelow(p: Pixel, alpha: Byte)
    ensures IsForeground(p) <==> DarkestChannel(p) < WhiteThreshold
    ensures IsForeground(p) <==> IsForeground(p.(a := alpha))
  {
  }
}
