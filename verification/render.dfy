/**
 * Draw commands: the canvas calls of one output frame, replaced by the list
 * of what is drawn, in the order it is drawn.
 */
module Render {
  import opened Landmarks

  datatype Draw =
    | Video                                   // the camera frame, full canvas
    | Person                                  // the segmented person, identity transform
    | Clone(index: int, tx: real, ty: real, scale: real)  // a copy of the person
    | SmokeFrame(x: real, y: real, scale: real, folder: int, frame: int)
    | Skeleton(hand: Hand)                    // finger skeleton overlay of one hand
}
