/** Image-space geometry shared by the canvas and the drag selection:
    points, corner-pair boxes and the detected objects that carry them. */
module Geometry {

  /** A point in image space (source-image pixels). */
  datatype Point = Point(x: real, y: real)

  /** A bounding box as its two corners: top-left (x1, y1) and
      bottom-right (x2, y2). The detection service stores it as the
      four-number array [x1, y1, x2, y2]. */
  datatype Box = Box(x1: real, y1: real, x2: real, y2: real)

  /** A detected object: box, category label and confidence score.
      Masks and keypoints are display-only and not part of the model. */
  datatype DetectedObject = DetectedObject(box: Box, category: string, score: real)

  /** The corners are ordered; the detection data promises this but
      nothing checks it. */
  predicate WellFormed(b: Box) {
    b.x1 <= b.x2 && b.y1 <= b.y2
  }

  /** Point-in-box test with both bounds inclusive on both axes. A box
      whose corners are inverted contains no point at all. */
  predicate IsInsideBox(px: real, py: real, b: Box): (inside: bool)
    ensures inside ==> WellFormed(b)
  {
    px >= b.x1 && px <= b.x2 && py >= b.y1 && py <= b.y2
  }

  /** The four corners of a box, in the order the drag rule tests them. */
  function Corners(b: Box): seq<Point> {
    [Point(b.x1, b.y1), Point(b.x2, b.y1), Point(b.x1, b.y2), Point(b.x2, b.y2)]
  }

  /** Both bounds are inclusive: every corner of a well-formed box is
      inside it. */
  lemma CornersInside(b: Box)
    requires WellFormed(b)
    ensures forall k :: 0 <= k < 4 ==> IsInsideBox(Corners(b)[k].x, Corners(b)[k].y, b)
  {
  }
}
