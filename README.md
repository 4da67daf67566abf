# Arch2Mesh footprint extractor, modelled in Dafny

Arch2Mesh is a prototype web application: a user uploads a floor-plan image
and an elevation image, the server guesses a building footprint from the plan
and returns it with some elevation figures, and the browser extrudes a 3D
volume from them. The only real logic is on the server, in `detectWalls` and
its companion `analyzeElevation` (`server.ts`). This project models those two.

`detectWalls` works on the decoded RGBA bitmap of the plan:

- it visits every pixel in row-major order and calls a pixel foreground when
  its red, green or blue byte is below 240 (alpha is never read);
- it grows an axis-aligned box over the foreground pixels, starting from
  `minX = width, minY = height, maxX = 0, maxY = 0`;
- when no pixel is foreground it uses the fixed box (100, 100, 200, 200),
  whatever the image's size;
- it converts the box's extents to metres at 0.05 m per pixel and returns a
  closed five-point rectangle centred at the origin, the scale, the image's
  size and the box.

`analyzeElevation` ignores its input and returns wall height 3.0 m, roof type
"gabled" and roof pitch 30 degrees.

Files:

- `raster.dfy` (module `Raster`): the decoded image (width, height and the
  pixels as a sequence of rows of RGBA byte tuples, row-major) and the foreground test.
- `footprint.dfy` (module `Footprint`): pixel boxes, the scale, the fallback
  box and the metric footprint, characterised by `IsCentredRing` (a closed,
  axis-aligned, origin-centred w-by-h ring).
- `wall_detection.dfy` (module `WallDetection`): the specification of the box
  (`IsTightBox`: contains every foreground pixel and each side touches one;
  `IsDetectedBounds`: that box, or the fallback without foreground), the scan
  as a method with nested loops proved against it, the extractor, and lemmas
  relating results. The scan is also given as a reference fold (`ScanBefore`:
  the state just before each pixel), which the loops are proved to compute
  and which is proved by induction to yield the tight box.
- `elevation.dfy` (module `Elevation`): the constant elevation stub.

Metre values are exact `real`s. The code's comment at the fallback speaks of a
"10x10 square"; the code uses a 100-pixel box, which is 5 m by 5 m, and the
model follows the code.

## Model

| member | source | states |
|---|---|---|
| `Raster.ForegroundIffDarkestBelow` | server.ts:39-44 | a pixel is foreground exactly when its darkest colour channel is below 240 (per-channel OR), and changing its alpha byte never changes the outcome |
| `WallDetection.Widen` | server.ts:45-48 | the widened box contains the new pixel and the old box, and each side either stays or moves to the pixel |
| `WallDetection.VisitPixel` | server.ts:38-50 | the per-pixel callback reads only red, green and blue: a foreground pixel widens the box over itself and sets `found`, any other pixel leaves both unchanged |
| `WallDetection.ScanBeforeSummarises` | server.ts:35-51 | at every point of the row-major scan, the state so far holds every foreground pixel already visited, each side of its box touches one of them, and with none the box keeps its initial values |
| `WallDetection.ScanFindsTightBox` | server.ts:35-51 | the complete scan finds foreground exactly when the image has some, its box is then the tight box of the foreground, and otherwise it is (width, height, 0, 0) |
| `WallDetection.ScanBounds` | server.ts:35-51 | the nested loops compute the reference scan state `ScanBefore(img, 0, height)`; `found` holds exactly when some pixel is foreground; then the box is the tight box of the foreground pixels; otherwise it keeps its initial values (width, height, 0, 0) |
| `WallDetection.DetectWalls` | server.ts:29-77 | an undecodable file fails and a decoded one never does; the layout's box is the tight foreground box, or (100, 100, 200, 200) without foreground, and the layout is the footprint, scale and size built from that box |
| `WallDetection.LayoutFor` | server.ts:59-76 | the footprint is a closed origin-centred ring of the box's metric width and height; scale is 0.05 and the original size is the image's, whatever the box |
| `WallDetection.TightBoxUnique` | server.ts:35-51 | two tight boxes of the same image are equal, so the detected box depends on the pixels only |
| `WallDetection.LayoutDeterministic` | server.ts:29-77 | two layouts satisfying the extractor's specification for the same image are equal (same input, same output) |
| `WallDetection.DetectedBoundsInRange` | server.ts:35-56 | the reported box always has minX <= maxX and minY <= maxY, and with foreground it lies inside the image |
| `WallDetection.EmptyImageFallsBack` | server.ts:35-56 | an image of width or height zero gets the fallback box (100, 100, 200, 200) |
| `WallDetection.SinglePixelLayout` | server.ts:44-69 | a single foreground pixel at (x0, y0) gives the box (x0, y0, x0, y0) and a footprint whose five points are all the origin |
| `WallDetection.BlankAndCentralSquareAgree` | server.ts:45-61 | a blank image and one whose foreground exactly spans [100..200] x [100..200] yield equal layouts, a 5 m by 5 m origin-centred square |
| `Footprint.FootprintOf` | server.ts:63-69 | the five points form a closed ring (fifth equals first) of axis-aligned edges, w wide and h high, with opposite corners mirrored through the origin |
| `Footprint.CentredRingIsFootprint` | server.ts:63-69 | conversely, any closed origin-centred w-by-h ring in bottom-left, bottom-right, top-right, top-left order equals the emitted footprint |
| `Footprint.BoxFootprint` | server.ts:59-69 | the footprint of a box is the centred ring of (maxX - minX) * 0.05 by (maxY - minY) * 0.05 metres |
| `Footprint.SinglePixelFootprintDegenerate` | server.ts:59-69 | a one-pixel box gives five points all equal to (0, 0) |
| `Footprint.FallbackIsFiveMetreSquare` | server.ts:54-61 | the fallback box gives a 5 m by 5 m square with corners at plus or minus 2.5 m |
| `Footprint.TwentyPixelBoxIsOneMetreSquare` | server.ts:59-69 | the box (10, 20, 30, 40) gives a 1 m square with corners at plus or minus 0.5 m, closed by repeating the first |
| `Elevation.AnalyzeElevation` | server.ts:82-89 | the result is always wall height 3.0, roof type "gabled", roof pitch 30 |
| `Elevation.ElevationIgnoresInput` | server.ts:82-89 | any two paths, including the empty one, give the same result |

## Left out

- Decoding the uploaded file (`Jimp.read`, server.ts:30) is a foreign library; the model takes the decoded bitmap, or a decode failure, as its input.
- Jimp's bitmap is one flat byte buffer read at `idx`, `idx + 1` and `idx + 2`; the model holds the pixels as rows of RGBA tuples, so the byte-offset arithmetic is not modelled.
- The 0.05 product and the halving are IEEE doubles in the original; the model uses exact reals and makes no rounding claim.
- Pixel coordinates and image sizes are unbounded naturals; JavaScript number limits are not modelled.
- Upload storage (multer, file names from `Date.now()` and `Math.random()`), the `/api/upload` route with its 400 and 500 responses, job ids, URLs, logging, static serving, the Vite middleware and `listen` are I/O and plumbing.
- The ReconstructionResult that the route assembles from the layout and the elevation record is part of the route and is not modelled.
- `main.py` (an upload skeleton) and the React components (viewer, upload form, chat, sidebar, control panel, plan collection, buttons) are user interface and rendering, not part of this model.
