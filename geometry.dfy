/**
 * Box geometry: the fusion engine's utilities (backend/app/services/innovations.py:
 * calculate_iou, bbox_center_distance, expand_bbox, is_contained) and the
 * adapters' `_calculate_iou` (backend/app/services/detection_services.py), which
 * differs from the former in not flooring box sides at 1.
 */
module Geometry {
  import opened Detections

  function Max(a: int, b: int): int { if a >= b then a else b }
  function Min(a: int, b: int): int { if a <= b then a else b }

  // Small arithmetic facts, kept apart so that the solver sees no other terms.

  lemma MulMono(a: int, b: int, c: int, d: int)
    requires 0 <= a <= c && 0 <= b <= d
    ensures a * b <= c * d
  {
    assert a * b <= c * b;
    assert c * b <= c * d;
  }

  lemma MulPos(a: int, b: int)
    requires a > 0 && b > 0
    ensures a * b > 0
  {
  }

  lemma RatioInUnit(x: real, y: real)
    requires 0.0 <= x <= y && y > 0.0
    ensures 0.0 <= x / y <= 1.0
    ensures x / y == 0.0 <==> x == 0.0
    ensures (x / y) * y == x
  {
  }

  lemma RatioAbove(x: real, y: real, t: real)
    requires y > 0.0
    ensures x / y > t <==> x > t * y
  {
    assert (x / y) * y == x;
    if x / y > t {
      assert (x / y) * y > t * y;
    } else {
      assert (x / y) * y <= t * y;
    }
  }

  lemma Square(x: real)
    ensures x * x >= 0.0
    ensures x != 0.0 ==> x * x > 0.0
  {
    if x < 0.0 {
      var y := -x;
      assert y * y > 0.0;
      assert y * y == x * x;
    }
  }

  /** Width of the overlap of two boxes along x, zero when they do not overlap there. */
  function OverlapW(a: Box, b: Box): (r: int)
    ensures r >= 0
  {
    Max(0, Min(a.x2, b.x2) - Max(a.x1, b.x1))
  }

  function OverlapH(a: Box, b: Box): (r: int)
    ensures r >= 0
  {
    Max(0, Min(a.y2, b.y2) - Max(a.y1, b.y1))
  }

  /** `max(0, xB - xA) * max(0, yB - yA)`: the intersection area. */
  function InterArea(a: Box, b: Box): (r: int)
    ensures r >= 0
  {
    OverlapW(a, b) * OverlapH(a, b)
  }

  /** The boxes share no interior: their overlap is empty along x or along y. */
  predicate Disjoint(a: Box, b: Box)
  {
    Min(a.x2, b.x2) <= Max(a.x1, b.x1) || Min(a.y2, b.y2) <= Max(a.y1, b.y1)
  }

  lemma InterAreaZeroIffDisjoint(a: Box, b: Box)
    ensures InterArea(a, b) == 0 <==> Disjoint(a, b)
  {
    if !Disjoint(a, b) {
      MulPos(OverlapW(a, b), OverlapH(a, b));
    }
  }

  // ---------------- calculate_iou (innovations.py) ----------------

  /** Box area with each side floored at 1. */
  function FlooredArea(b: Box): (r: int)
    ensures r >= 1
  {
    Max(1, Width(b)) * Max(1, Height(b))
  }

  lemma InterWithinFlooredArea(a: Box, b: Box)
    ensures InterArea(a, b) <= FlooredArea(a)
    ensures InterArea(a, b) <= FlooredArea(b)
  {
    var w, h := OverlapW(a, b), OverlapH(a, b);
    MulMono(w, h, Max(1, Width(a)), Max(1, Height(a)));
    MulMono(w, h, Max(1, Width(b)), Max(1, Height(b)));
  }

  /**
   * calculate_iou: intersection over union with side lengths floored at 1, so the
   * union is always positive and the value is a proper ratio.
   */
  function FlooredIou(a: Box, b: Box): (r: real)
    ensures 0.0 <= r <= 1.0
    ensures r == 0.0 <==> InterArea(a, b) == 0
  {
    var inter := InterArea(a, b);
    var union := FlooredArea(a) + FlooredArea(b) - inter;
    InterWithinFlooredArea(a, b);
    RatioInUnit(inter as real, union as real);
    if union > 0 then inter as real / union as real else 0.0
  }

  /** `iou > t` decided by cross-multiplication with the (positive) floored union. */
  lemma FlooredIouAbove(a: Box, b: Box, t: real)
    ensures FlooredArea(a) + FlooredArea(b) - InterArea(a, b) > 0
    ensures FlooredIou(a, b) > t <==>
            InterArea(a, b) as real > t * (FlooredArea(a) + FlooredArea(b) - InterArea(a, b)) as real
  {
    InterWithinFlooredArea(a, b);
    UnionRatioAbove(InterArea(a, b), FlooredArea(a), FlooredArea(b), t);
  }

  lemma UnionRatioAbove(i: int, fa: int, fb: int, t: real)
    requires 0 <= i <= fa && fb >= 1
    ensures fa + fb - i > 0
    ensures i as real / (fa + fb - i) as real > t <==> i as real > t * (fa + fb - i) as real
  {
    RatioAbove(i as real, (fa + fb - i) as real, t);
  }

  lemma FlooredIouSymmetric(a: Box, b: Box)
    ensures FlooredIou(a, b) == FlooredIou(b, a)
  {
  }

  /** A box with positive width and height overlaps itself completely. */
  lemma FlooredIouSelf(a: Box)
    requires Width(a) > 0 && Height(a) > 0
    ensures FlooredIou(a, a) == 1.0
  {
    assert InterArea(a, a) == Width(a) * Height(a) == FlooredArea(a);
  }

  /** The ratio is zero exactly when the boxes do not overlap. */
  lemma FlooredIouZeroIffDisjoint(a: Box, b: Box)
    ensures FlooredIou(a, b) == 0.0 <==> Disjoint(a, b)
  {
    InterAreaZeroIffDisjoint(a, b);
  }

  // ---------------- _calculate_iou (detection_services.py) ----------------

  /** `(x2 - x1) * (y2 - y1)`, unfloored (negative for a box with exactly one inverted side). */
  function Area(b: Box): int { Width(b) * Height(b) }

  lemma InterWithinArea(a: Box, b: Box)
    ensures WellFormed(a) && WellFormed(b) ==> InterArea(a, b) <= Area(a) && InterArea(a, b) <= Area(b)
  {
    if WellFormed(a) && WellFormed(b) {
      var w, h := OverlapW(a, b), OverlapH(a, b);
      MulMono(w, h, Width(a), Height(a));
      MulMono(w, h, Width(b), Height(b));
    }
  }

  /**
   * _calculate_iou: intersection over the unfloored union, 0 when the union is not
   * positive; for boxes with ordered corners it is a proper ratio.
   */
  function PlainIou(a: Box, b: Box): (r: real)
    ensures WellFormed(a) && WellFormed(b) ==> 0.0 <= r <= 1.0
  {
    var inter := InterArea(a, b);
    var union := Area(a) + Area(b) - inter;
    InterWithinArea(a, b);
    if WellFormed(a) && WellFormed(b) && union > 0 then
      RatioInUnit(inter as real, union as real);
      inter as real / union as real
    else if union > 0 then inter as real / union as real else 0.0
  }

  lemma PlainIouSymmetric(a: Box, b: Box)
    ensures PlainIou(a, b) == PlainIou(b, a)
  {
  }

  /** A non-positive union gives 0 rather than a division error. */
  lemma PlainIouDegenerate(a: Box, b: Box)
    requires Area(a) + Area(b) - InterArea(a, b) <= 0
    ensures PlainIou(a, b) == 0.0
  {
  }

  /** Boxes that do not overlap have IoU 0. */
  lemma PlainIouDisjoint(a: Box, b: Box)
    requires Disjoint(a, b)
    ensures PlainIou(a, b) == 0.0
  {
    InterAreaZeroIffDisjoint(a, b);
  }

  /** A box of positive area overlaps itself completely. */
  lemma PlainIouSelf(a: Box)
    requires WellFormed(a) && Area(a) > 0
    ensures PlainIou(a, a) == 1.0
  {
    assert OverlapW(a, a) == Width(a) && OverlapH(a, a) == Height(a);
    assert InterArea(a, a) == Area(a);
  }

  // ---------------- bbox_center_distance ----------------

  function CenterX(b: Box): real { (b.x1 + b.x2) as real / 2.0 }
  function CenterY(b: Box): real { (b.y1 + b.y2) as real / 2.0 }

  /** The square of bbox_center_distance (the model avoids `hypot`). */
  function CenterDistSq(a: Box, b: Box): (r: real)
    ensures r >= 0.0
    ensures r == 0.0 <==> CenterX(a) == CenterX(b) && CenterY(a) == CenterY(b)
  {
    var dx := CenterX(a) - CenterX(b);
    var dy := CenterY(a) - CenterY(b);
    Square(dx);
    Square(dy);
    dx * dx + dy * dy
  }

  lemma CenterDistSqSymmetric(a: Box, b: Box)
    ensures CenterDistSq(a, b) == CenterDistSq(b, a)
  {
    var dx, dy := CenterX(a) - CenterX(b), CenterY(a) - CenterY(b);
    assert (-dx) * (-dx) == dx * dx && (-dy) * (-dy) == dy * dy;
  }

  /**
   * `bbox_center_distance(a, b) / hypot(W, H) < t`, decided on squares. When W and H
   * are both 0 the source divides by zero in numpy (inf or nan), which is never
   * below t; the squared form is false then as well.
   */
  predicate CloserThan(a: Box, b: Box, W: int, H: int, t: real)
  {
    CenterDistSq(a, b) < t * t * (W * W + H * H) as real
  }

  /** The squared comparison agrees with the ratio of the true distance to the true diagonal. */
  lemma CloserThanMatchesRatio(a: Box, b: Box, W: int, H: int, t: real, dist: real, diag: real)
    requires t > 0.0 && dist >= 0.0 && diag > 0.0
    requires dist * dist == CenterDistSq(a, b)
    requires diag * diag == (W * W + H * H) as real
    ensures CloserThan(a, b, W, H, t) <==> dist / diag < t
  {
    var td := t * diag;
    assert td > 0.0;
    assert t * t * (W * W + H * H) as real == td * td;
    assert dist / diag < t <==> dist < td by {
      assert (dist / diag) * diag == dist;
    }
    if dist < td {
      assert dist * dist <= dist * td < td * td;
    } else {
      assert dist * dist >= td * dist >= td * td;
    }
  }

  lemma NeverCloseOnEmptyImage(a: Box, b: Box, t: real)
    ensures !CloserThan(a, b, 0, 0, t)
  {
  }

  // ---------------- expand_bbox ----------------

  /** expand_bbox: grow by int(w * ratio) / int(h * ratio) on each side, clipped to [0, W] x [0, H]. */
  function ExpandBox(b: Box, W: int, H: int, ratio: real): (r: Box)
    ensures 0 <= r.x1 && 0 <= r.y1 && r.x2 <= W && r.y2 <= H
  {
    var mx := Trunc(Width(b) as real * ratio);
    var my := Trunc(Height(b) as real * ratio);
    Box(Max(0, b.x1 - mx), Max(0, b.y1 - my), Min(W, b.x2 + mx), Min(H, b.y2 + my))
  }

  /** A box inside the image, grown by a non-negative ratio, still lies inside the image and contains it. */
  lemma ExpandBoxContains(b: Box, W: int, H: int, ratio: real)
    requires WellFormed(b) && 0 <= b.x1 && b.x2 <= W && 0 <= b.y1 && b.y2 <= H
    requires ratio >= 0.0
    ensures var r := ExpandBox(b, W, H, ratio);
            WellFormed(r) && r.x1 <= b.x1 && r.y1 <= b.y1 && b.x2 <= r.x2 && b.y2 <= r.y2
  {
    assert Width(b) as real * ratio >= 0.0;
    assert Height(b) as real * ratio >= 0.0;
  }

  // ---------------- is_contained ----------------

  /** is_contained(inner, outer, thresh): more than `thresh` of inner's unfloored area lies in outer. */
  function IsContained(inner: Box, outer: Box, thresh: real): (r: bool)
    ensures r <==> Area(inner) > 0 && InterArea(inner, outer) as real > thresh * Area(inner) as real
  {
    var innerArea := Area(inner);
    if innerArea > 0 then
      RatioAbove(InterArea(inner, outer) as real, innerArea as real, thresh);
      InterArea(inner, outer) as real / innerArea as real > thresh
    else false
  }

  lemma InsideInter(inner: Box, outer: Box)
    requires WellFormed(inner)
    requires outer.x1 <= inner.x1 && inner.x2 <= outer.x2 && outer.y1 <= inner.y1 && inner.y2 <= outer.y2
    ensures InterArea(inner, outer) == Area(inner)
  {
    assert OverlapW(inner, outer) == Width(inner) && OverlapH(inner, outer) == Height(inner);
  }

  lemma WholeAbove(x: real, t: real)
    requires x > 0.0 && t < 1.0
    ensures x / x > t
  {
  }

  /** A box of positive area lying wholly inside another is contained for every threshold below 1. */
  lemma InsideIsContained(inner: Box, outer: Box, thresh: real)
    requires WellFormed(inner) && Area(inner) > 0
    requires outer.x1 <= inner.x1 && inner.x2 <= outer.x2 && outer.y1 <= inner.y1 && inner.y2 <= outer.y2
    requires thresh < 1.0
    ensures IsContained(inner, outer, thresh)
  {
    InsideInter(inner, outer);
    WholeAbove(Area(inner) as real, thresh);
  }
}
