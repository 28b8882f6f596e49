/** Integer rectangles, scored candidates and the pixel-inclusive
    intersection-over-union used to compare two detections. */
module Geometry {

  /** An axis-aligned rectangle in image pixels, laid out like
      System.Drawing.Rectangle: the right and bottom edges are
      x + width and y + height. */
  datatype Rectangle = Rectangle(x: int, y: int, width: int, height: int) {
    function Right(): int { x + width }
    function Bottom(): int { y + height }
  }

  /** A scored region produced by the box decoder (FaceRecognitionResult). */
  datatype Candidate = Candidate(score: real, rectangle: Rectangle)

  /** The value of a floating-point quotient: a finite number, or what
      IEEE 754 division gives when the divisor is zero. */
  datatype Ratio = Finite(value: real) | PositiveInfinity | NegativeInfinity | NotANumber

  function Min(a: int, b: int): int { if a <= b then a else b }

  function Max(a: int, b: int): int { if a >= b then a else b }

  /** Number of pixel columns (or rows) that the spans [startA, endA] and
      [startB, endB] have in common when both ends are counted:
      max(0, min(endA, endB) - max(startA, startB) + 1). */
  function AxisOverlap(startA: int, endA: int, startB: int, endB: int): (n: int)
    ensures n >= 0
    ensures n > 0 <==> startA <= endB && startB <= endA && startA <= endA && startB <= endB
    ensures n > 0 ==> n <= endA - startA + 1 && n <= endB - startB + 1
  {
    Max(0, Min(endA, endB) - Max(startA, startB) + 1)
  }

  function IntersectionArea(a: Rectangle, b: Rectangle): int
  {
    AxisOverlap(a.x, a.Right(), b.x, b.Right()) * AxisOverlap(a.y, a.Bottom(), b.y, b.Bottom())
  }

  /** The union as the source computes it: both areas (width * height,
      without the extra pixel) minus the pixel-inclusive intersection. */
  function UnionArea(a: Rectangle, b: Rectangle): int
  {
    a.width * a.height + b.width * b.height - IntersectionArea(a, b)
  }

  /** Floating-point division of two integer-valued quantities. */
  function Quotient(numerator: int, denominator: int): Ratio
  {
    if denominator != 0 then Finite(numerator as real / denominator as real)
    else if numerator > 0 then PositiveInfinity
    else if numerator < 0 then NegativeInfinity
    else NotANumber
  }

  function IntersectionOverUnion(a: Candidate, b: Candidate): Ratio
  {
    Quotient(IntersectionArea(a.rectangle, b.rectangle), UnionArea(a.rectangle, b.rectangle))
  }

  /** The comparison `ratio >= threshold` on doubles, for a finite threshold:
      +infinity passes, -infinity and NaN do not. */
  predicate AtLeast(r: Ratio, threshold: real)
  {
    match r
    case Finite(v) => v >= threshold
    case PositiveInfinity => true
    case NegativeInfinity => false
    case NotANumber => false
  }

  /** Candidate b is suppressed by survivor a at the given threshold. */
  predicate Overlapping(a: Candidate, b: Candidate, threshold: real)
  {
    AtLeast(IntersectionOverUnion(a, b), threshold)
  }

  /** The two rectangles share no pixel column or no pixel row
      (edges counted as part of the rectangle). */
  predicate Separated(a: Rectangle, b: Rectangle)
  {
    a.Right() < b.x || b.Right() < a.x || a.Bottom() < b.y || b.Bottom() < a.y
  }

  /** IoU does not depend on the order of its arguments. */
  lemma IntersectionOverUnionSymmetric(a: Candidate, b: Candidate)
    ensures IntersectionOverUnion(a, b) == IntersectionOverUnion(b, a)
    ensures IntersectionArea(a.rectangle, b.rectangle) == IntersectionArea(b.rectangle, a.rectangle)
  {
  }

  /** For rectangles of non-negative extent, the intersection is empty
      exactly when they are separated on some axis; otherwise it is positive. */
  lemma IntersectionEmptyIffSeparated(a: Rectangle, b: Rectangle)
    requires a.width >= 0 && a.height >= 0 && b.width >= 0 && b.height >= 0
    ensures IntersectionArea(a, b) >= 0
    ensures IntersectionArea(a, b) == 0 <==> Separated(a, b)
  {
    var dx := AxisOverlap(a.x, a.Right(), b.x, b.Right());
    var dy := AxisOverlap(a.y, a.Bottom(), b.y, b.Bottom());
    assert IntersectionArea(a, b) == dx * dy;
    if dx > 0 && dy > 0 {
      MulPositive(dx, dy);
    }
  }

  lemma MulPositive(p: int, q: int)
    requires p > 0 && q > 0
    ensures p * q > 0
  {
  }

  /** Two rectangles with positive extent that are separated have IoU 0,
      so no positive threshold makes one suppress the other. */
  lemma SeparatedNotOverlapping(a: Candidate, b: Candidate, threshold: real)
    requires a.rectangle.width > 0 && a.rectangle.height > 0
    requires b.rectangle.width > 0 && b.rectangle.height > 0
    requires Separated(a.rectangle, b.rectangle)
    requires threshold > 0.0
    ensures IntersectionOverUnion(a, b) == Finite(0.0)
    ensures !Overlapping(a, b, threshold) && !Overlapping(b, a, threshold)
  {
    IntersectionEmptyIffSeparated(a.rectangle, b.rectangle);
    IntersectionEmptyIffSeparated(b.rectangle, a.rectangle);
    MulPositive(a.rectangle.width, a.rectangle.height);
    MulPositive(b.rectangle.width, b.rectangle.height);
  }

  /** Because the intersection counts one extra pixel per axis while the
      areas do not, a rectangle compared with itself never has IoU 1. */
  lemma SelfIntersectionOverUnionIsNotOne(c: Candidate)
    requires c.rectangle.width > 0 && c.rectangle.height > 0
    ensures IntersectionOverUnion(c, c) != Finite(1.0)
  {
    var w, h := c.rectangle.width, c.rectangle.height;
    assert AxisOverlap(c.rectangle.x, c.rectangle.Right(), c.rectangle.x, c.rectangle.Right()) == w + 1;
    assert AxisOverlap(c.rectangle.y, c.rectangle.Bottom(), c.rectangle.y, c.rectangle.Bottom()) == h + 1;
    var inter := (w + 1) * (h + 1);
    var union := 2 * (w * h) - inter;
    assert IntersectionArea(c.rectangle, c.rectangle) == inter;
    assert UnionArea(c.rectangle, c.rectangle) == union;
    assert inter == w * h + w + h + 1;
    if union != 0 {
      assert inter != union;
    }
  }

  /** Two identical 1x1 rectangles get IoU -2: the pixel-inclusive
      intersection (4) exceeds the sum of the areas (2). */
  lemma UnitSquareSelfIntersectionOverUnion(c: Candidate)
    requires c.rectangle.width == 1 && c.rectangle.height == 1
    ensures IntersectionOverUnion(c, c) == Finite(-2.0)
    ensures forall threshold: real :: threshold > -2.0 ==> !Overlapping(c, c, threshold)
  {
    assert IntersectionArea(c.rectangle, c.rectangle) == 4;
    assert UnionArea(c.rectangle, c.rectangle) == -2;
  }
}
