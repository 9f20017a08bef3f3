/** Values produced by the camera and the face models, and the events the
    camera services report to their callback. */
module Vision {
  import opened Wrappers
  import opened Numeric

  /** A face embedding, as face_recognition computes it (128 components). */
  type Encoding = seq<real>

  const EncodingWidth: nat := 128

  datatype Point = Point(x: real, y: real)

  /** The keypoints of one face detection that the gaze test reads. */
  datatype Keypoints = Keypoints(
    leftEye: Point, rightEye: Point, noseTip: Point, mouth: Point,
    leftEyeTragion: Point, rightEyeTragion: Point)

  /** A bounding box, normalised or in pixels. */
  datatype BBox = BBox(xmin: real, ymin: real, xmax: real, ymax: real)

  /** One face found by the detector. `encoding` is the embedding the
      recognition model yields for this face's box. */
  datatype Detection = Detection(keypoints: Keypoints, bbox: BBox, encoding: Encoding)

  /** A captured colour image, of which the model keeps the width and height
      the code reads; its pixels only reach the foreign models. */
  datatype Frame = Frame(width: nat, height: nat)

  /** A recognised name, or `None` for a face that matched nobody. */
  type Name = Option<string>

  /** Name -> number of consecutive frames it was recognised in. */
  type History = map<Name, nat>

  /** The callback's event names with their keyword arguments. */
  datatype Event =
    | NotFaces
    | FaceNotListen
    | FaceListen
    | FaceRecognized(usernames: History)
    | RecordingFace(progress: real)

  /** `bbox.scale((w, h))`: normalised box to pixel box. */
  function Scale(b: BBox, w: real, h: real): BBox
  {
    BBox(b.xmin * w, b.ymin * h, b.xmax * w, b.ymax * h)
  }

  /** The `(top, right, bottom, left)` integer tuple face_recognition takes. */
  function CssBox(b: BBox): (css: (int, int, int, int))
    ensures 0.0 <= b.ymin <= b.ymax ==> 0 <= css.0 <= css.2
    ensures 0.0 <= b.xmin <= b.xmax ==> 0 <= css.3 <= css.1
  {
    (Trunc(b.ymin), Trunc(b.xmax), Trunc(b.ymax), Trunc(b.xmin))
  }

  /** Reads a `(top, right, bottom, left)` tuple back as a box. */
  function FromCss(css: (int, int, int, int)): BBox
  {
    BBox(css.3 as real, css.0 as real, css.1 as real, css.2 as real)
  }

  /** A box on whole pixels survives the reordering unchanged. */
  lemma CssBoxRoundTrip(left: int, top: int, right: int, bottom: int)
    ensures FromCss(CssBox(BBox(left as real, top as real, right as real, bottom as real)))
         == BBox(left as real, top as real, right as real, bottom as real)
  {
    TruncOfInt(left);
    TruncOfInt(top);
    TruncOfInt(right);
    TruncOfInt(bottom);
  }
}
