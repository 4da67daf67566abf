/** The footprint extractor: scan the decoded plan image for the bounding
    box of its non-white pixels, fall back to a fixed box when there is
    none, and report the box as an origin-centred rectangle in metres
    together with the scale and the image's size. */
module WallDetection {
  import opened Raster
  import opened Footprint

  datatype Size = Size(width: nat, height: nat)

  /** What the extractor reports for one plan image. */
  datatype Layout = Layout(footprint: seq<Point>, scale: real, originalSize: Size, detectedBounds: Bounds)

  /** Reading the uploaded file either yields a bitmap or fails. */
  datatype DecodeResult = Decoded(image: Image) | DecodeFailed

  datatype Detection = Detected(layout: Layout) | Failed

  // ---------------------------------------------------------------------
  // Specification of the box

  /** (x, y) lies in the image and its pixel is not white. */
  ghost predicate ForegroundAt(img: Image, x: int, y: int)
    requires img.Valid()
  {
    0 <= x < img.width && 0 <= y < img.height && IsForeground(img.At(x, y))
  }

  ghost predicate HasForeground(img: Image)
    requires img.Valid()
  {
    exists x, y :: ForegroundAt(img, x, y)
  }

  /** b is the smallest box holding every foreground pixel: each foreground
      pixel lies inside it, and each of its four sides touches one. */
  ghost predicate IsTightBox(img: Image, b: Bounds)
    requires img.Valid()
  {
    && (forall x, y :: ForegroundAt(img, x, y) ==> b.minX <= x <= b.maxX && b.minY <= y <= b.maxY)
    && (exists y :: ForegroundAt(img, b.minX, y))
    && (exists y :: ForegroundAt(img, b.maxX, y))
    && (exists x :: ForegroundAt(img, x, b.minY))
    && (exists x :: ForegroundAt(img, x, b.maxY))
  }

  /** The box the extractor must report: the tight box of the foreground,
      or the fixed fallback box when the image has no foreground. */
  ghost predicate IsDetectedBounds(img: Image, b: Bounds)
    requires img.Valid()
  {
    if HasForeground(img) then IsTightBox(img, b) else b == FallbackBounds
  }

  /** The report built from a box: footprint, scale, original size, box. */
  function LayoutFor(width: nat, height: nat, b: Bounds): (l: Layout)
    ensures IsCentredRing(l.footprint, WidthMetres(b), HeightMetres(b))
    ensures l.scale == 0.05 && l.originalSize == Size(width, height) && l.detectedBounds == b
  {
    Layout(BoxFootprint(b), Scale, Size(width, height), b)
  }

  ghost predicate IsLayoutOf(img: Image, l: Layout)
    requires img.Valid()
  {
    IsDetectedBounds(img, l.detectedBounds) && l == LayoutFor(img.width, img.height, l.detectedBounds)
  }

  // ---------------------------------------------------------------------
  // The scan

  /** What the scan has accumulated: whether any foreground pixel has been
      seen, and the box grown over the ones seen. */
  datatype ScanState = ScanState(found: bool, box: Bounds)

  function Min(a: int, b: int): int { if a < b then a else b }
  function Max(a: int, b: int): int { if a > b then a else b }

  /** The box widened to include pixel (x, y). */
  function Widen(b: Bounds, x: int, y: int): (r: Bounds)
    ensures r.minX <= x <= r.maxX && r.minY <= y <= r.maxY
    ensures r.minX <= b.minX && r.minY <= b.minY && b.maxX <= r.maxX && b.maxY <= r.maxY
    ensures r.minX == b.minX || r.minX == x
    ensures r.minY == b.minY || r.minY == y
    ensures r.maxX == b.maxX || r.maxX == x
    ensures r.maxY == b.maxY || r.maxY == y
  {
    Bounds(Min(b.minX, x), Min(b.minY, y), Max(b.maxX, x), Max(b.maxY, y))
  }

  /** The effect of visiting pixel (x, y) holding p. */
  function Visit(s: ScanState, p: Pixel, x: int, y: int): ScanState {
    if IsForeground(p) then ScanState(true, Widen(s.box, x, y)) else s
  }

  /** Reference definition of the scan: its state just before pixel (x, y),
      visiting rows top to bottom and each row left to right. (0, height)
      is the state after the last pixel. */
  ghost function ScanBefore(img: Image, x: nat, y: nat): ScanState
    requires img.Valid() && x <= img.width && y <= img.height
    requires x == 0 || y < img.height
    decreases y, x
  {
    if x == 0 && y == 0 then ScanState(false, Bounds(img.width, img.height, 0, 0))
    else if x == 0 then ScanBefore(img, img.width, y - 1)
    else Visit(ScanBefore(img, x - 1, y), img.At(x - 1, y), x - 1, y)
  }

  /** Pixel (px, py) comes before (x, y) in row-major order. */
  ghost predicate Scanned(px: int, py: int, x: int, y: int) {
    py < y || (py == y && px < x)
  }

  ghost predicate ScannedForeground(img: Image, px: int, py: int, x: int, y: int)
    requires img.Valid()
  {
    ForegroundAt(img, px, py) && Scanned(px, py, x, y)
  }

  /** Each side of b touches a foreground pixel visited before (x, y). */
  ghost predicate SidesTouched(img: Image, b: Bounds, x: int, y: int)
    requires img.Valid()
  {
    && (exists py :: ScannedForeground(img, b.minX, py, x, y))
    && (exists px :: ScannedForeground(img, px, b.minY, x, y))
    && (exists py :: ScannedForeground(img, b.maxX, py, x, y))
    && (exists px :: ScannedForeground(img, px, b.maxY, x, y))
  }

  /** s summarises the pixels before (x, y): its box holds every foreground
      pixel among them and each side touches one; with none the box still
      has its initial values (width, height, 0, 0). */
  ghost predicate Summarises(img: Image, x: int, y: int, s: ScanState)
    requires img.Valid()
  {
    && (forall px, py :: ScannedForeground(img, px, py, x, y) ==>
          s.found && s.box.minX <= px <= s.box.maxX && s.box.minY <= py <= s.box.maxY)
    && (!s.found ==> s.box == Bounds(img.width, img.height, 0, 0))
    && (s.found ==> SidesTouched(img, s.box, x, y))
  }

  /** Pixels visited before (x, y) are still visited before any later
      position. */
  lemma SidesStayTouched(img: Image, b: Bounds, x: int, y: int, x2: int, y2: int)
    requires img.Valid() && SidesTouched(img, b, x, y)
    requires y < y2 || (y == y2 && x <= x2)
    ensures SidesTouched(img, b, x2, y2)
  {
    var p1 :| ScannedForeground(img, b.minX, p1, x, y);
    var p2 :| ScannedForeground(img, p2, b.minY, x, y);
    var p3 :| ScannedForeground(img, b.maxX, p3, x, y);
    var p4 :| ScannedForeground(img, p4, b.maxY, x, y);
    assert ScannedForeground(img, b.minX, p1, x2, y2);
    assert ScannedForeground(img, p2, b.minY, x2, y2);
    assert ScannedForeground(img, b.maxX, p3, x2, y2);
    assert ScannedForeground(img, p4, b.maxY, x2, y2);
  }

  /** Moving on from (x, y) to (x2, y2) past no new foreground pixel keeps
      a summary valid. */
  lemma SummaryPassesBackground(img: Image, x: int, y: int, x2: int, y2: int, s: ScanState)
    requires img.Valid() && Summarises(img, x, y, s)
    requires y < y2 || (y == y2 && x <= x2)
    requires forall px, py :: ScannedForeground(img, px, py, x2, y2) ==> Scanned(px, py, x, y)
    ensures Summarises(img, x2, y2, s)
  {
    forall px, py | ScannedForeground(img, px, py, x2, y2)
      ensures ScannedForeground(img, px, py, x, y)
    {
    }
    if s.found {
      SidesStayTouched(img, s.box, x, y, x2, y2);
    }
  }

  /** Visiting a foreground pixel widens the summary over it. */
  lemma SummaryTakesForeground(img: Image, x: int, y: int, s: ScanState)
    requires img.Valid() && Summarises(img, x, y, s)
    requires ForegroundAt(img, x, y)
    ensures Summarises(img, x + 1, y, ScanState(true, Widen(s.box, x, y)))
  {
    var b := Widen(s.box, x, y);
    var next := x + 1;
    assert ScannedForeground(img, x, y, next, y);
    forall px, py | ScannedForeground(img, px, py, next, y)
      ensures b.minX <= px <= b.maxX && b.minY <= py <= b.maxY
    {
      if px != x || py != y {
        assert ScannedForeground(img, px, py, x, y);
      }
    }
    if s.found {
      SidesStayTouched(img, s.box, x, y, next, y);
    }
  }

  /** Every prefix of the scan is summarised by the reference state. */
  lemma {:induction false} ScanBeforeSummarises(img: Image, x: nat, y: nat)
    requires img.Valid() && x <= img.width && y <= img.height
    requires x == 0 || y < img.height
    ensures Summarises(img, x, y, ScanBefore(img, x, y))
    decreases y, x
  {
    if x == 0 && y == 0 {
    } else if x == 0 {
      ScanBeforeSummarises(img, img.width, y - 1);
      SummaryPassesBackground(img, img.width, y - 1, 0, y, ScanBefore(img, x, y));
    } else {
      ScanBeforeSummarises(img, x - 1, y);
      var prev := ScanBefore(img, x - 1, y);
      if IsForeground(img.At(x - 1, y)) {
        SummaryTakesForeground(img, x - 1, y, prev);
      } else {
        SummaryPassesBackground(img, x - 1, y, x, y, prev);
      }
    }
  }

  /** The complete scan finds foreground exactly when the image has some,
      and then its box is the tight box. */
  lemma ScanFindsTightBox(img: Image)
    requires img.Valid()
    ensures var s := ScanBefore(img, 0, img.height);
      && (s.found <==> HasForeground(img))
      && (s.found ==> IsTightBox(img, s.box))
      && (!s.found ==> s.box == Bounds(img.width, img.height, 0, 0))
  {
    var s := ScanBefore(img, 0, img.height);
    ScanBeforeSummarises(img, 0, img.height);
    forall px, py | ForegroundAt(img, px, py)
      ensures ScannedForeground(img, px, py, 0, img.height)
    {
    }
  }

  /** The per-pixel callback of the scan: a pixel whose red, green or blue
      byte is below the threshold widens the box to include it and marks
      the scan as having found foreground; any other pixel changes nothing. */
  method VisitPixel(p: Pixel, x: int, y: int, found: bool, box: Bounds) returns (found': bool, box': Bounds)
    ensures ScanState(found', box') == Visit(ScanState(found, box), p, x, y)
  {
    var minX, minY, maxX, maxY := box.minX, box.minY, box.maxX, box.maxY;
    found' := found;
    if p.r < WhiteThreshold || p.g < WhiteThreshold || p.b < WhiteThreshold {
      if x < minX { minX := x; }
      if y < minY { minY := y; }
      if x > maxX { maxX := x; }
      if y > maxY { maxY := y; }
      found' := true;
    }
    box' := Bounds(minX, minY, maxX, maxY);
  }

  /** Visit every pixel in row-major order and grow the box over the
      foreground ones. Without foreground the box keeps its initial values
      (width, height, 0, 0). */
  method ScanBounds(img: Image) returns (found: bool, box: Bounds)
    requires img.Valid()
    ensures ScanState(found, box) == ScanBefore(img, 0, img.height)
    ensures found <==> HasForeground(img)
    ensures found ==> IsTightBox(img, box)
    ensures !found ==> box == Bounds(img.width, img.height, 0, 0)
  {
    found, box := false, Bounds(img.width, img.height, 0, 0);
    var y := 0;
    while y < img.height
      invariant 0 <= y <= img.height
      invariant ScanState(found, box) == ScanBefore(img, 0, y)
    {
      var x := 0;
      while x < img.width
        invariant 0 <= x <= img.width
        invariant ScanState(found, box) == ScanBefore(img, x, y)
      {
        found, box := VisitPixel(img.At(x, y), x, y, found, box);
        x := x + 1;
      }
      y := y + 1;
    }
    ScanFindsTightBox(img);
  }

  /** The extractor. A file the decoder cannot read fails; otherwise the
      scan's box (or the fallback) becomes the reported layout. */
  method DetectWalls(input: DecodeResult) returns (r: Detection)
    requires input.Decoded? ==> input.image.Valid()
    ensures r.Failed? <==> input.DecodeFailed?
    ensures input.Decoded? ==> r.Detected? && IsLayoutOf(input.image, r.layout)
  {
    if input.DecodeFailed? {
      return Failed;
    }
    var img := input.image;
    var found, box := ScanBounds(img);
    var minX, minY, maxX, maxY := box.minX, box.minY, box.maxX, box.maxY;
    if !found {
      minX, minY, maxX, maxY := 100, 100, 200, 200;
    }
    r := Detected(LayoutFor(img.width, img.height, Bounds(minX, minY, maxX, maxY)));
  }

  // ---------------------------------------------------------------------
  // Properties of the specification

  /** At most one box is tight, so the reported box is a function of the
      pixels alone. */
  lemma TightBoxUnique(img: Image, b1: Bounds, b2: Bounds)
    requires img.Valid() && IsTightBox(img, b1) && IsTightBox(img, b2)
    ensures b1 == b2
  {
  }

  /** Extraction is deterministic: two layouts of the same image are equal. */
  lemma LayoutDeterministic(img: Image, l1: Layout, l2: Layout)
    requires img.Valid() && IsLayoutOf(img, l1) && IsLayoutOf(img, l2)
    ensures l1 == l2
  {
    if HasForeground(img) {
      TightBoxUnique(img, l1.detectedBounds, l2.detectedBounds);
    }
  }

  /** The reported box is never inverted, and a detected one lies inside
      the image. */
  lemma DetectedBoundsInRange(img: Image, b: Bounds)
    requires img.Valid() && IsDetectedBounds(img, b)
    ensures b.minX <= b.maxX && b.minY <= b.maxY
    ensures HasForeground(img) ==>
      0 <= b.minX && b.maxX < img.width && 0 <= b.minY && b.maxY < img.height
  {
  }

  /** An image with no pixels at all has no foreground, so it gets the
      fallback box. */
  lemma EmptyImageFallsBack(img: Image, b: Bounds)
    requires img.Valid() && (img.width == 0 || img.height == 0)
    requires IsDetectedBounds(img, b)
    ensures b == FallbackBounds
  {
  }

  /** One foreground pixel gives a one-pixel box and a footprint whose five
      points all sit at the origin. */
  lemma SinglePixelLayout(img: Image, x0: int, y0: int, l: Layout)
    requires img.Valid() && ForegroundAt(img, x0, y0)
    requires forall x, y :: ForegroundAt(img, x, y) ==> x == x0 && y == y0
    requires IsLayoutOf(img, l)
    ensures l.detectedBounds == Bounds(x0, y0, x0, y0)
    ensures forall i :: 0 <= i < 5 ==> l.footprint[i] == Point(0.0, 0.0)
  {
    assert IsTightBox(img, Bounds(x0, y0, x0, y0));
    TightBoxUnique(img, l.detectedBounds, Bounds(x0, y0, x0, y0));
    SinglePixelFootprintDegenerate(x0, y0);
  }

  /** A blank image and one whose foreground exactly spans
      [100..200] x [100..200] cannot be told apart by their layouts: both
      report the fallback box and a 5 m by 5 m square. */
  lemma BlankAndCentralSquareAgree(blank: Image, square: Image, l1: Layout, l2: Layout)
    requires blank.Valid() && square.Valid()
    requires blank.width == square.width && blank.height == square.height
    requires !HasForeground(blank) && IsTightBox(square, FallbackBounds)
    requires IsLayoutOf(blank, l1) && IsLayoutOf(square, l2)
    ensures l1 == l2
    ensures IsCentredRing(l1.footprint, 5.0, 5.0)
  {
    var y :| ForegroundAt(square, 100, y);
    assert HasForeground(square);
    TightBoxUnique(square, l2.detectedBounds, FallbackBounds);
    FallbackIsFiveMetreSquare();
  }
}
