/** The recognition results the detectors deliver. They arrive as inputs: the
    detectors themselves are outside the model. */
module Vision {
  import opened Geometry

  /** `FirebaseVisionText.Element`: one recognised word and its bounding box. */
  datatype Element = Element(text: string, boundingBox: Rect)

  /** `FirebaseVisionText.Line`: only its elements are consulted. */
  datatype Line = Line(elements: seq<Element>)

  /** `FirebaseVisionText.TextBlock`: only its lines are consulted. */
  datatype Block = Block(lines: seq<Line>)

  /** `FirebaseVisionText`: the whole text-recognition result. */
  datatype VisionText = VisionText(blocks: seq<Block>)

  /** The landmark kinds a face detector running with all landmarks can report. */
  datatype Landmark =
    | BottomMouth | LeftCheek | LeftEar | LeftEye | LeftMouth
    | NoseBase | RightCheek | RightEar | RightEye | RightMouth

  /** `FirebaseVisionFace`: `getLandmark(id)` is null exactly for the kinds
      missing from `landmarks`. */
  datatype Face = Face(boundingBox: Rect, smilingProbability: real, landmarks: map<Landmark, PointF>)
}
