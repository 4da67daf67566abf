/** The elevation analysis, which is a placeholder: it ignores the image it
    is given and always reports the same wall height, roof type and pitch. */
module Elevation {

  datatype ElevationSpec = ElevationSpec(wallHeight: real, roofType: string, roofPitch: int)

  /** Wall height in metres, roof pitch in degrees. */
  function AnalyzeElevation(imagePath: string): (s: ElevationSpec)
    ensures s.wallHeight == 3.0 && s.roofType == "gabled" && s.roofPitch == 30
  {
    ElevationSpec(3.0, "gabled", 30)
  }

  /** The result does not depend on the path, even an empty one. */
  lemma ElevationIgnoresInput(p: string, q: string)
    ensures AnalyzeElevation(p) == AnalyzeElevation(q)
    ensures AnalyzeElevation("") == AnalyzeElevation(p)
  {
  }
}
