/** Pixel bounding boxes and the metric footprint derived from them.
    Arithmetic is exact (`real`); the rounding of the double-precision
    product in the original is not modelled. */
module Footprint {

  /** An axis-aligned box in pixel coordinates, corners inclusive. */
  datatype Bounds = Bounds(minX: int, minY: int, maxX: int, maxY: int)

  /** A point on the ground plane, in metres. */
  datatype Point = Point(x: real, y: real)

  /** Metres per pixel. */
  const Scale: real := 0.05

  /** Box used when the image holds no foreground pixel at all; it does not
      depend on the image's size. */
  const FallbackBounds: Bounds := Bounds(100, 100, 200, 200)

  /** Horizontal and vertical extent of a box, converted to metres. */
  function WidthMetres(b: Bounds): real {
    (b.maxX - b.minX) as real * Scale
  }

  function HeightMetres(b: Bounds): real {
    (b.maxY - b.minY) as real * Scale
  }

  /** A closed ring of five points tracing an axis-aligned w-by-h rectangle
      whose centre is the origin: bottom-left, bottom-right, top-right,
      top-left, then the first point again. */
  ghost predicate IsCentredRing(fp: seq<Point>, w: real, h: real) {
    && |fp| == 5
    && fp[4] == fp[0]
    // consecutive corners share one coordinate: the edges are axis-aligned
    && fp[0].y == fp[1].y && fp[1].x == fp[2].x
    && fp[2].y == fp[3].y && fp[3].x == fp[0].x
    // the bottom edge is w long and the right edge h long
    && fp[1].x - fp[0].x == w && fp[2].y - fp[1].y == h
    // opposite corners are mirror images through the origin
    && fp[0].x + fp[2].x == 0.0 && fp[0].y + fp[2].y == 0.0
  }

  /** The footprint of a w-by-h metre rectangle centred at the origin. */
  function FootprintOf(w: real, h: real): (fp: seq<Point>)
    ensures IsCentredRing(fp, w, h)
  {
    [ Point(-w / 2.0, -h / 2.0),
      Point(w / 2.0, -h / 2.0),
      Point(w / 2.0, h / 2.0),
      Point(-w / 2.0, h / 2.0),
      Point(-w / 2.0, -h / 2.0) ]
  }

  /** The ring description determines the footprint: any closed centred
      w-by-h ring in that corner order is exactly FootprintOf(w, h). */
  lemma CentredRingIsFootprint(fp: seq<Point>, w: real, h: real)
    requires IsCentredRing(fp, w, h)
    ensures fp == FootprintOf(w, h)
  {
    var expected := FootprintOf(w, h);
    assert fp[0] == expected[0];
    assert fp[1] == expected[1];
    assert fp[2] == expected[2];
    assert fp[3] == expected[3];
  }

  /** The footprint of a box: its pixel extents scaled to metres. */
  function BoxFootprint(b: Bounds): (fp: seq<Point>)
    ensures IsCentredRing(fp, WidthMetres(b), HeightMetres(b))
  {
    FootprintOf(WidthMetres(b), HeightMetres(b))
  }

  /** A box of one pixel has no extent, so all five points of its footprint
      coincide with the origin. */
  lemma SinglePixelFootprintDegenerate(x: int, y: int)
    ensures forall i :: 0 <= i < 5 ==> BoxFootprint(Bounds(x, y, x, y))[i] == Point(0.0, 0.0)
  {
    assert WidthMetres(Bounds(x, y, x, y)) == 0.0;
    assert HeightMetres(Bounds(x, y, x, y)) == 0.0;
  }

  /** The fallback box spans 100 pixels each way: a 5 m by 5 m square, the
      same footprint as a foreground that exactly covers [100..200] x [100..200]. */
  lemma FallbackIsFiveMetreSquare()
    ensures IsCentredRing(BoxFootprint(FallbackBounds), 5.0, 5.0)
    ensures BoxFootprint(FallbackBounds)[0] == Point(-2.5, -2.5)
    ensures BoxFootprint(FallbackBounds)[2] == Point(2.5, 2.5)
  {
    assert WidthMetres(FallbackBounds) == 5.0;
    assert HeightMetres(FallbackBounds) == 5.0;
  }

  /** A box spanning [10..30] x [20..40] gives a 1 m by 1 m square with
      corners at plus or minus half a metre. */
  lemma TwentyPixelBoxIsOneMetreSquare()
    ensures BoxFootprint(Bounds(10, 20, 30, 40)) ==
      [Point(-0.5, -0.5), Point(0.5, -0.5), Point(0.5, 0.5), Point(-0.5, 0.5), Point(-0.5, -0.5)]
  {
    assert WidthMetres(Bounds(10, 20, 30, 40)) == 1.0;
    assert HeightMetres(Bounds(10, 20, 30, 40)) == 1.0;
  }
}
