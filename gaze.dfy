/** `Wakeface.check_looking` and the looking-face filter shared by the wake
    detector and the enrolment loop. */
module Gaze {
  import opened Vision

  /** Default tolerance of `check_looking`. */
  const DefaultIncr: real := 0.25

  /** Mean y of the two eyes. */
  function EyeMidY(k: Keypoints): real
  {
    (k.leftEye.y + k.rightEye.y) / 2.0
  }

  /** Both spans the test divides by are non-zero. */
  predicate NonDegenerate(k: Keypoints)
  {
    k.rightEyeTragion.x != k.leftEyeTragion.x && k.mouth.y != EyeMidY(k)
  }

  /** `v` lies in the segment from `lo` to `hi` once a fraction `incr` of its
      length is cut off at each end; the segment may run either way. */
  predicate InTrimmed(lo: real, hi: real, v: real, incr: real)
  {
    if lo < hi then lo + incr * (hi - lo) <= v <= hi - incr * (hi - lo)
    else hi + incr * (lo - hi) <= v <= lo - incr * (lo - hi)
  }

  lemma ScaleBoth(a: real, b: real, d: real)
    requires d > 0.0
    ensures a <= b <==> a * d <= b * d
  {
    if a <= b {
      assert (b - a) * d >= 0.0;
    } else {
      assert (a - b) * d > 0.0;
    }
  }

  /** Comparing a quotient by a positive `d` is comparing after multiplying by `d`. */
  lemma DivBounds(a: real, d: real, c: real)
    requires d > 0.0
    ensures (c <= a / d) <==> (c * d <= a)
    ensures (a / d <= c) <==> (a <= c * d)
  {
    var q := a / d;
    assert q * d == a;
    ScaleBoth(c, q, d);
    ScaleBoth(q, c, d);
  }

  /** Normalising into [0, 1] and testing against [incr, 1 - incr] is the same
      as testing the raw coordinate against the trimmed segment. */
  lemma NormalisedInTrimmed(lo: real, hi: real, v: real, incr: real)
    requires lo != hi
    ensures (incr <= (v - lo) / (hi - lo) <= 1.0 - incr) <==> InTrimmed(lo, hi, v, incr)
  {
    var u := 1.0 - incr;
    if lo < hi {
      var d := hi - lo;
      DivBounds(v - lo, d, incr);
      DivBounds(v - lo, d, u);
      assert u * d == d - incr * d;
    } else {
      var d := lo - hi;
      assert (v - lo) / (hi - lo) == (lo - v) / d;
      DivBounds(lo - v, d, incr);
      DivBounds(lo - v, d, u);
      assert u * d == d - incr * d;
    }
  }

  /** `check_looking(face, incr)`: the nose tip lies in the middle of the
      tragion-to-tragion span horizontally and of the eyes-to-mouth span
      vertically, with `incr` of each span trimmed off at both ends. */
  function CheckLooking(k: Keypoints, incr: real): (r: bool)
    requires NonDegenerate(k)
    ensures r <==> (InTrimmed(k.leftEyeTragion.x, k.rightEyeTragion.x, k.noseTip.x, incr)
                    && InTrimmed(EyeMidY(k), k.mouth.y, k.noseTip.y, incr))
  {
    var xl := k.leftEyeTragion.x;
    var xr := k.rightEyeTragion.x;
    var ye := EyeMidY(k);
    var ym := k.mouth.y;
    var xn := (k.noseTip.x - xl) / (xr - xl);
    var yn := (k.noseTip.y - ye) / (ym - ye);
    NormalisedInTrimmed(xl, xr, k.noseTip.x, incr);
    NormalisedInTrimmed(ye, ym, k.noseTip.y, incr);
    (0.0 + incr <= xn <= 1.0 - incr) && (0.0 + incr <= yn <= 1.0 - incr)
  }

  /** A nose tip at the midpoint of both spans passes the default test. */
  lemma MidpointIsLooking(k: Keypoints)
    requires NonDegenerate(k)
    requires k.noseTip.x == (k.leftEyeTragion.x + k.rightEyeTragion.x) / 2.0
    requires k.noseTip.y == (EyeMidY(k) + k.mouth.y) / 2.0
    ensures CheckLooking(k, DefaultIncr)
  {
  }

  /** A nose tip on either tragion fails the test for every positive tolerance. */
  lemma TragionIsNotLooking(k: Keypoints, incr: real)
    requires NonDegenerate(k) && incr > 0.0
    requires k.noseTip.x == k.leftEyeTragion.x || k.noseTip.x == k.rightEyeTragion.x
    ensures !CheckLooking(k, incr)
  {
    var lo, hi, v := k.leftEyeTragion.x, k.rightEyeTragion.x, k.noseTip.x;
    var cut := if lo < hi then incr * (hi - lo) else incr * (lo - hi);
    assert cut > 0.0 by {
      PositiveProduct(incr, if lo < hi then hi - lo else lo - hi);
    }
    assert !InTrimmed(lo, hi, v, incr);
  }

  lemma PositiveProduct(a: real, b: real)
    requires a > 0.0 && b > 0.0
    ensures a * b > 0.0
  {
  }

  /** Moves and scales every keypoint by the same map on each axis. */
  function MovePoint(p: Point, sx: real, sy: real, tx: real, ty: real): Point
  {
    Point(sx * p.x + tx, sy * p.y + ty)
  }

  function Transform(k: Keypoints, sx: real, sy: real, tx: real, ty: real): Keypoints
  {
    Keypoints(MovePoint(k.leftEye, sx, sy, tx, ty), MovePoint(k.rightEye, sx, sy, tx, ty),
              MovePoint(k.noseTip, sx, sy, tx, ty), MovePoint(k.mouth, sx, sy, tx, ty),
              MovePoint(k.leftEyeTragion, sx, sy, tx, ty), MovePoint(k.rightEyeTragion, sx, sy, tx, ty))
  }

  lemma RatioInvariant(s: real, t: real, v: real, lo: real, hi: real)
    requires s != 0.0 && lo != hi
    ensures ((s * v + t) - (s * lo + t)) / ((s * hi + t) - (s * lo + t)) == (v - lo) / (hi - lo)
  {
    var q := (v - lo) / (hi - lo);
    assert q * (hi - lo) == v - lo;
    assert ((s * v + t) - (s * lo + t)) == s * (v - lo);
    assert ((s * hi + t) - (s * lo + t)) == s * (hi - lo);
    assert q * (s * (hi - lo)) == s * (v - lo);
  }

  /** One axis of the test is unchanged by `x -> s * x + t` with `s != 0`. */
  lemma AxisInvariant(s: real, t: real, v: real, lo: real, hi: real, v': real, lo': real, hi': real, incr: real)
    requires s != 0.0 && lo != hi
    requires v' == s * v + t && lo' == s * lo + t && hi' == s * hi + t
    ensures lo' != hi'
    ensures InTrimmed(lo', hi', v', incr) == InTrimmed(lo, hi, v, incr)
  {
    assert hi' - lo' == s * (hi - lo);
    RatioInvariant(s, t, v, lo, hi);
    NormalisedInTrimmed(lo, hi, v, incr);
    NormalisedInTrimmed(lo', hi', v', incr);
  }

  lemma XAxisInvariant(k: Keypoints, incr: real, sx: real, sy: real, tx: real, ty: real)
    requires k.leftEyeTragion.x != k.rightEyeTragion.x && sx != 0.0
    ensures Transform(k, sx, sy, tx, ty).leftEyeTragion.x != Transform(k, sx, sy, tx, ty).rightEyeTragion.x
    ensures InTrimmed(Transform(k, sx, sy, tx, ty).leftEyeTragion.x, Transform(k, sx, sy, tx, ty).rightEyeTragion.x,
                      Transform(k, sx, sy, tx, ty).noseTip.x, incr)
         == InTrimmed(k.leftEyeTragion.x, k.rightEyeTragion.x, k.noseTip.x, incr)
  {
    var k' := Transform(k, sx, sy, tx, ty);
    AxisInvariant(sx, tx, k.noseTip.x, k.leftEyeTragion.x, k.rightEyeTragion.x,
                  k'.noseTip.x, k'.leftEyeTragion.x, k'.rightEyeTragion.x, incr);
  }

  /** The midpoint of two moved values is the moved midpoint. */
  lemma MidpointMoves(a: real, b: real, s: real, t: real)
    ensures ((s * a + t) + (s * b + t)) / 2.0 == s * ((a + b) / 2.0) + t
  {
    assert (s * a + t) + (s * b + t) == s * (a + b) + 2.0 * t;
  }

  lemma YAxisInvariant(k: Keypoints, incr: real, sx: real, sy: real, tx: real, ty: real)
    requires EyeMidY(k) != k.mouth.y && sy != 0.0
    ensures EyeMidY(Transform(k, sx, sy, tx, ty)) != Transform(k, sx, sy, tx, ty).mouth.y
    ensures InTrimmed(EyeMidY(Transform(k, sx, sy, tx, ty)), Transform(k, sx, sy, tx, ty).mouth.y,
                      Transform(k, sx, sy, tx, ty).noseTip.y, incr)
         == InTrimmed(EyeMidY(k), k.mouth.y, k.noseTip.y, incr)
  {
    var k' := Transform(k, sx, sy, tx, ty);
    MidpointMoves(k.leftEye.y, k.rightEye.y, sy, ty);
    assert EyeMidY(k') == sy * EyeMidY(k) + ty;
    AxisInvariant(sy, ty, k.noseTip.y, EyeMidY(k), k.mouth.y,
                  k'.noseTip.y, EyeMidY(k'), k'.mouth.y, incr);
  }

  /** The test depends only on where the nose sits relative to the face: moving
      the whole face or rescaling it (each axis by a non-zero factor) keeps the
      answer. */
  lemma LookingIsInvariant(k: Keypoints, incr: real, sx: real, sy: real, tx: real, ty: real)
    requires NonDegenerate(k) && sx != 0.0 && sy != 0.0
    ensures NonDegenerate(Transform(k, sx, sy, tx, ty))
    ensures CheckLooking(Transform(k, sx, sy, tx, ty), incr) == CheckLooking(k, incr)
  {
    XAxisInvariant(k, incr, sx, sy, tx, ty);
    YAxisInvariant(k, incr, sx, sy, tx, ty);
  }

  predicate AllNonDegenerate(dets: seq<Detection>)
  {
    forall i :: 0 <= i < |dets| ==> NonDegenerate(dets[i].keypoints)
  }

  predicate Looking(d: Detection)
    requires NonDegenerate(d.keypoints)
  {
    CheckLooking(d.keypoints, DefaultIncr)
  }

  /** The detections that pass `check_looking`, in detection order. */
  function LookingDetections(dets: seq<Detection>): (r: seq<Detection>)
    requires AllNonDegenerate(dets)
    ensures |r| <= |dets|
    ensures forall d :: d in r ==> d in dets && NonDegenerate(d.keypoints) && Looking(d)
    ensures forall i :: 0 <= i < |dets| && Looking(dets[i]) ==> dets[i] in r
  {
    if dets == [] then []
    else
      assert AllNonDegenerate(dets[1..]);
      (if Looking(dets[0]) then [dets[0]] else []) + LookingDetections(dets[1..])
  }

  /** Nobody is looking exactly when no detection passes the test. */
  lemma NoneLookingIff(dets: seq<Detection>)
    requires AllNonDegenerate(dets)
    ensures LookingDetections(dets) == [] <==> forall i :: 0 <= i < |dets| ==> !Looking(dets[i])
  {
  }

  /** The first looking detection is the earliest detection that passes. */
  lemma {:induction false} FirstLookingIsEarliest(dets: seq<Detection>)
    requires AllNonDegenerate(dets)
    requires LookingDetections(dets) != []
    ensures exists i :: 0 <= i < |dets| && dets[i] == LookingDetections(dets)[0]
                     && (forall j :: 0 <= j < i ==> !Looking(dets[j]))
  {
    assert AllNonDegenerate(dets[1..]);
    if !Looking(dets[0]) {
      FirstLookingIsEarliest(dets[1..]);
      var i :| 0 <= i < |dets[1..]| && dets[1..][i] == LookingDetections(dets[1..])[0]
               && (forall j :: 0 <= j < i ==> !Looking(dets[1..][j]));
      assert dets[i + 1] == LookingDetections(dets)[0];
      forall j | 0 <= j < i + 1 ensures !Looking(dets[j]) {
        if j > 0 { assert dets[j] == dets[1..][j - 1]; }
      }
    } else {
      assert dets[0] == LookingDetections(dets)[0];
    }
  }

  lemma ConcatNonDegenerate(a: seq<Detection>, b: seq<Detection>)
    requires AllNonDegenerate(a) && AllNonDegenerate(b)
    ensures AllNonDegenerate(a + b)
  {
    forall i | 0 <= i < |a + b| ensures NonDegenerate((a + b)[i].keypoints) {
      if i >= |a| { assert (a + b)[i] == b[i - |a|]; }
    }
  }

  /** One detection is kept exactly when it passes. */
  lemma LookingDetectionsSingle(d: Detection)
    requires NonDegenerate(d.keypoints)
    ensures AllNonDegenerate([d])
    ensures LookingDetections([d]) == if Looking(d) then [d] else []
  {
    assert [d][1..] == [];
  }

  /** The detection itself when it passes, nothing otherwise. */
  function Kept(d: Detection): seq<Detection>
    requires NonDegenerate(d.keypoints)
  {
    if Looking(d) then [d] else []
  }

  lemma LookingDetectionsCons(a: seq<Detection>, b: seq<Detection>)
    requires a != [] && AllNonDegenerate(a) && AllNonDegenerate(a + b) && AllNonDegenerate(a[1..] + b)
    ensures LookingDetections(a + b) == Kept(a[0]) + LookingDetections(a[1..] + b)
    ensures LookingDetections(a) == Kept(a[0]) + LookingDetections(a[1..])
  {
    assert (a + b)[1..] == a[1..] + b && (a + b)[0] == a[0];
  }

  /** Filtering a concatenation filters each part and keeps them in order.
      With `LookingDetectionsSingle` this says the filter keeps detection
      order and multiplicity. */
  lemma {:induction false} LookingDetectionsConcat(a: seq<Detection>, b: seq<Detection>)
    requires AllNonDegenerate(a) && AllNonDegenerate(b)
    ensures AllNonDegenerate(a + b)
    ensures LookingDetections(a + b) == LookingDetections(a) + LookingDetections(b)
  {
    ConcatNonDegenerate(a, b);
    if a == [] {
      assert a + b == b;
    } else {
      assert AllNonDegenerate(a[1..]);
      LookingDetectionsConcat(a[1..], b);
      LookingDetectionsCons(a, b);
      var k, la, lb := Kept(a[0]), LookingDetections(a[1..]), LookingDetections(b);
      SeqAssoc(k, la, lb);
      calc {
        LookingDetections(a + b);
        k + LookingDetections(a[1..] + b);
        k + (la + lb);
        (k + la) + lb;
        LookingDetections(a) + lb;
      }
    }
  }

  lemma SeqAssoc<T>(x: seq<T>, y: seq<T>, z: seq<T>)
    ensures x + (y + z) == (x + y) + z
  {
  }

  /** Each detection's box scaled by `(w, h)`. */
  function ScaledBoxes(dets: seq<Detection>, w: real, h: real): seq<BBox>
  {
    seq(|dets|, i requires 0 <= i < |dets| => Scale(dets[i].bbox, w, h))
  }

  lemma ScaledBoxesConcat(x: seq<Detection>, y: seq<Detection>, w: real, h: real)
    ensures ScaledBoxes(x + y, w, h) == ScaledBoxes(x, w, h) + ScaledBoxes(y, w, h)
  {
  }

  /** `[face.bbox.scale((w, h)) for face in detections if check_looking(face)]`. */
  function LookingBoxes(dets: seq<Detection>, w: real, h: real): seq<BBox>
    requires AllNonDegenerate(dets)
  {
    ScaledBoxes(LookingDetections(dets), w, h)
  }

  /** A single detection contributes its scaled box exactly when it passes. */
  lemma LookingBoxesSingle(d: Detection, w: real, h: real)
    requires NonDegenerate(d.keypoints)
    ensures AllNonDegenerate([d])
    ensures LookingBoxes([d], w, h) == if Looking(d) then [Scale(d.bbox, w, h)] else []
  {
    LookingDetectionsSingle(d);
  }

  /** The boxes of a concatenation are the boxes of each part, in order. */
  lemma LookingBoxesConcat(a: seq<Detection>, b: seq<Detection>, w: real, h: real)
    requires AllNonDegenerate(a) && AllNonDegenerate(b)
    ensures AllNonDegenerate(a + b)
    ensures LookingBoxes(a + b, w, h) == LookingBoxes(a, w, h) + LookingBoxes(b, w, h)
  {
    LookingDetectionsConcat(a, b);
    ScaledBoxesConcat(LookingDetections(a), LookingDetections(b), w, h);
  }
}
