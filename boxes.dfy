/** Axis-aligned boxes given by two corners `(x1, y1, x2, y2)`, and their
    intersection-over-union (the Jaccard index), as computed by `_iou`
    in final/training/convert_annotations.py. */
module Boxes {

  datatype Box = Box(x1: real, y1: real, x2: real, y2: real) {

    /** Coordinate `k` of the box as the array `[x1, y1, x2, y2]` (`box[k]` in the source). */
    function At(k: nat): real
      requires k < 4
    {
      if k == 0 then x1 else if k == 1 then y1 else if k == 2 then x2 else y2
    }

    /** The box has positive width and height. */
    predicate Proper()
    {
      x1 < x2 && y1 < y2
    }

    /** Every coordinate lies in the unit interval. */
    predicate InUnitSquare()
    {
      0.0 <= x1 <= 1.0 && 0.0 <= y1 <= 1.0 && 0.0 <= x2 <= 1.0 && 0.0 <= y2 <= 1.0
    }

    function Width(): real
    {
      x2 - x1
    }

    function Height(): real
    {
      y2 - y1
    }

    function Area(): real
    {
      Width() * Height()
    }
  }

  function Max(a: real, b: real): real
  {
    if a >= b then a else b
  }

  function Min(a: real, b: real): real
  {
    if a <= b then a else b
  }

  /** Length of the overlap of the intervals `[a1, a2]` and `[b1, b2]` (zero when disjoint). */
  function Overlap(a1: real, a2: real, b1: real, b2: real): (r: real)
    ensures 0.0 <= r
    ensures a1 <= a2 ==> r <= a2 - a1
    ensures b1 <= b2 ==> r <= b2 - b1
  {
    Max(0.0, Min(a2, b2) - Max(a1, b1))
  }

  /** Area of the overlap of the two boxes (zero when they do not overlap). */
  function Intersection(a: Box, b: Box): real
  {
    Overlap(a.x1, a.x2, b.x1, b.x2) * Overlap(a.y1, a.y2, b.y1, b.y2)
  }

  function Union(a: Box, b: Box): real
  {
    a.Area() + b.Area() - Intersection(a, b)
  }

  /** `_iou(box1, box2)`: the overlap as a fraction of the union, and 0 when the union
      is not positive. */
  function Iou(a: Box, b: Box): real
  {
    var union := Union(a, b);
    if union > 0.0 then Intersection(a, b) / union else 0.0
  }

  /** The IoU is the share of the union the overlap covers, and 0 for an empty union. */
  lemma IouShare(a: Box, b: Box)
    ensures Union(a, b) <= 0.0 ==> Iou(a, b) == 0.0
    ensures Union(a, b) > 0.0 ==> Iou(a, b) * Union(a, b) == Intersection(a, b)
  {
    var union := Union(a, b);
    if union > 0.0 {
      assert Iou(a, b) == Intersection(a, b) / union;
    }
  }

  /** IoU does not depend on the order of its arguments. */
  lemma IouSymmetric(a: Box, b: Box)
    ensures Iou(a, b) == Iou(b, a)
  {
    var ix, iy := Overlap(a.x1, a.x2, b.x1, b.x2), Overlap(a.y1, a.y2, b.y1, b.y2);
    assert Overlap(b.x1, b.x2, a.x1, a.x2) == ix && Overlap(b.y1, b.y2, a.y1, a.y2) == iy;
    assert Intersection(a, b) == Intersection(b, a) == ix * iy;
    assert Union(a, b) == Union(b, a);
  }

  lemma MulMonotone(a: real, b: real, c: real, d: real)
    requires 0.0 <= a <= c && 0.0 <= b <= d
    ensures 0.0 <= a * b <= c * d
  {
    assert a * b <= c * b;
    assert c * b <= c * d;
  }

  lemma MulPositive(a: real, b: real)
    requires a > 0.0 && b > 0.0
    ensures a * b > 0.0
  {
  }

  /** A box of positive width and height has positive area. */
  lemma AreaPositive(a: Box)
    requires a.Proper()
    ensures a.Area() > 0.0
  {
    MulPositive(a.Width(), a.Height());
  }

  /** The overlap is never larger than either box. */
  lemma IntersectionBounds(a: Box, b: Box)
    requires a.Proper() && b.Proper()
    ensures 0.0 <= Intersection(a, b) <= a.Area()
    ensures Intersection(a, b) <= b.Area()
  {
    var ix := Overlap(a.x1, a.x2, b.x1, b.x2);
    var iy := Overlap(a.y1, a.y2, b.y1, b.y2);
    assert Intersection(a, b) == ix * iy;
    MulMonotone(ix, iy, a.Width(), a.Height());
    MulMonotone(ix, iy, b.Width(), b.Height());
  }

  /** For boxes of positive area the IoU is a fraction in [0, 1]. */
  lemma IouBounds(a: Box, b: Box)
    requires a.Proper() && b.Proper()
    ensures 0.0 <= Iou(a, b) <= 1.0
  {
    IntersectionBounds(a, b);
    var inter, union := Intersection(a, b), Union(a, b);
    AreaPositive(a);
    assert union >= a.Area() >= inter;
    assert union > 0.0;
    assert Iou(a, b) == inter / union;
    FractionUnit(inter, union);
  }

  lemma FractionUnit(a: real, s: real)
    requires 0.0 <= a <= s && s > 0.0
    ensures 0.0 <= a / s <= 1.0
  {
    assert a / s * s == a;
  }

  /** Boxes that do not overlap (they at most touch) have IoU 0. */
  lemma {:induction false} IouDisjoint(a: Box, b: Box)
    requires a.x2 <= b.x1 || b.x2 <= a.x1 || a.y2 <= b.y1 || b.y2 <= a.y1
    ensures Iou(a, b) == 0.0
  {
    assert Intersection(a, b) == 0.0;
  }

  lemma DivSelf(x: real)
    requires x > 0.0
    ensures x / x == 1.0
  {
  }

  /** A box of positive area has IoU 1 with itself. */
  lemma IouSelf(a: Box)
    requires a.Proper()
    ensures Iou(a, a) == 1.0
  {
    assert Intersection(a, a) == a.Area();
    AreaPositive(a);
    var area := a.Area();
    assert Union(a, a) == area;
    assert Iou(a, a) == area / area;
    DivSelf(area);
  }
}
