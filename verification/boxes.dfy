/** Bounding-box geometry of the backend: boxes in pixel coordinates
    `{x, y, w, h}`, intersection over union, and the thresholded arg-max that
    both target selection and re-acquisition use. */
module Boxes {
  import opened Wrappers

  /** A bounding box: top-left corner, width and height, in whole pixels. */
  datatype Box = Box(x: int, y: int, w: int, h: int)

  predicate NonNegativeSize(b: Box) { b.w >= 0 && b.h >= 0 }

  function Right(b: Box): int { b.x + b.w }
  function Bottom(b: Box): int { b.y + b.h }
  function Area(b: Box): int { b.w * b.h }

  function Max(a: int, b: int): int { if a >= b then a else b }
  function Min(a: int, b: int): int { if a <= b then a else b }

  /** Length of the overlap of the intervals [lo1, hi1) and [lo2, hi2),
      clamped at zero as `max(0, min(hi) - max(lo))`. */
  function Overlap(lo1: int, hi1: int, lo2: int, hi2: int): (r: int)
    ensures r >= 0
    ensures r > 0 <==> lo1 < hi2 && lo2 < hi1 && lo1 < hi1 && lo2 < hi2
    ensures r <= hi1 - lo1 || r == 0
  {
    Max(0, Min(hi1, hi2) - Max(lo1, lo2))
  }

  function IntersectionArea(a: Box, b: Box): int
  {
    Overlap(a.x, Right(a), b.x, Right(b)) * Overlap(a.y, Bottom(a), b.y, Bottom(b))
  }

  function UnionArea(a: Box, b: Box): int
  {
    Area(a) + Area(b) - IntersectionArea(a, b)
  }

  /** Intersection over union; a zero union gives 0.0 instead of a division. */
  function Iou(a: Box, b: Box): (r: real)
    ensures UnionArea(a, b) == 0 ==> r == 0.0
    ensures IntersectionArea(a, b) == 0 ==> r == 0.0
  {
    var u := UnionArea(a, b);
    if u == 0 then 0.0 else IntersectionArea(a, b) as real / u as real
  }

  /** The formula treats its two boxes alike. */
  lemma IouSymmetric(a: Box, b: Box)
    ensures Iou(a, b) == Iou(b, a)
  {
    assert IntersectionArea(a, b) == IntersectionArea(b, a);
  }

  /** Boxes that are apart, or only touch along an edge, have IoU 0. */
  lemma IouZeroWhenSeparated(a: Box, b: Box)
    requires Right(a) <= b.x || Right(b) <= a.x || Bottom(a) <= b.y || Bottom(b) <= a.y
    ensures Iou(a, b) == 0.0
  {
  }

  lemma MulMonotone(p: int, q: int, s: int, t: int)
    requires 0 <= p <= s && 0 <= q <= t
    ensures p * q <= s * t
  {
    assert p * q <= s * q;
    assert s * q <= s * t;
  }

  /** The intersection is no larger than either box. */
  lemma IntersectionWithin(a: Box, b: Box)
    requires NonNegativeSize(a) && NonNegativeSize(b)
    ensures 0 <= IntersectionArea(a, b) <= Area(a)
    ensures IntersectionArea(a, b) <= Area(b)
  {
    var ox := Overlap(a.x, Right(a), b.x, Right(b));
    var oy := Overlap(a.y, Bottom(a), b.y, Bottom(b));
    assert ox <= a.w && ox <= b.w;
    assert oy <= a.h && oy <= b.h;
    MulMonotone(ox, oy, a.w, a.h);
    MulMonotone(ox, oy, b.w, b.h);
  }

  /** For boxes of non-negative size the IoU lies in [0, 1]. */
  lemma IouInUnitInterval(a: Box, b: Box)
    requires NonNegativeSize(a) && NonNegativeSize(b)
    ensures 0.0 <= Iou(a, b) <= 1.0
  {
    IntersectionWithin(a, b);
    var i := IntersectionArea(a, b);
    var u := UnionArea(a, b);
    assert i <= u;
    if u != 0 {
      RatioAtMostOne(i, u);
    }
  }

  lemma RatioAtMostOne(i: int, u: int)
    requires 0 <= i <= u && u > 0
    ensures 0.0 <= i as real / u as real <= 1.0
  {
    var q := i as real / u as real;
    assert q * u as real == i as real;
  }

  /** A box with positive area overlaps itself completely. */
  lemma IouSelf(a: Box)
    requires a.w > 0 && a.h > 0
    ensures Iou(a, a) == 1.0
  {
    assert IntersectionArea(a, a) == Area(a);
    assert Area(a) > 0 by { MulMonotone(1, 1, a.w, a.h); }
    assert UnionArea(a, a) == Area(a);
    var r := Area(a) as real;
    assert r > 0.0;
    assert r / r == 1.0;
    assert Iou(a, a) == r / r;
  }

  // ---------------------------------------------------------------------
  // Thresholded arg-max: the loop shape shared by `find_best_match_by_iou`
  // (threshold `min_iou`) and `auto_select_target` (threshold -1): keep the
  // first element whose score is strictly above everything seen so far and
  // strictly above the threshold.

  /** Index chosen by that loop over `scores`, or None. */
  function FirstArgMaxAbove(scores: seq<real>, floor: real): (r: Option<nat>)
    ensures r.Some? ==> r.value < |scores|
  {
    if scores == [] then None
    else
      var prev := FirstArgMaxAbove(scores[..|scores| - 1], floor);
      var bar := if prev.None? then floor else scores[prev.value];
      if scores[|scores| - 1] > bar then Some(|scores| - 1) else prev
  }

  /** The score the loop compares against after seeing `scores`. */
  function BestSoFar(scores: seq<real>, floor: real): real
  {
    var r := FirstArgMaxAbove(scores, floor);
    if r.None? then floor else scores[r.value]
  }

  /** What the chosen index means: nothing is above the threshold exactly when
      there is no result; otherwise the result is above the threshold, no score
      beats it, and every earlier score is strictly smaller (earliest wins). */
  lemma {:induction false} FirstArgMaxAboveSpec(scores: seq<real>, floor: real)
    ensures FirstArgMaxAbove(scores, floor).None? <==>
      forall i :: 0 <= i < |scores| ==> scores[i] <= floor
    ensures FirstArgMaxAbove(scores, floor).Some? ==>
      var k := FirstArgMaxAbove(scores, floor).value;
      && floor < scores[k]
      && (forall i :: 0 <= i < |scores| ==> scores[i] <= scores[k])
      && (forall i :: 0 <= i < k ==> scores[i] < scores[k])
  {
    if scores != [] {
      var n := |scores| - 1;
      var init := scores[..n];
      FirstArgMaxAboveSpec(init, floor);
      assert forall i :: 0 <= i < n ==> init[i] == scores[i];
    }
  }

  /** The three properties of the lemma above pin the index down. */
  lemma FirstArgMaxAboveUnique(scores: seq<real>, floor: real, k: nat)
    requires k < |scores| && floor < scores[k]
    requires forall i :: 0 <= i < |scores| ==> scores[i] <= scores[k]
    requires forall i :: 0 <= i < k ==> scores[i] < scores[k]
    ensures FirstArgMaxAbove(scores, floor) == Some(k)
  {
    FirstArgMaxAboveSpec(scores, floor);
  }
}
