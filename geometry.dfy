/** Linear pixel indices and (x, y) points in a row-major rectangle whose origin is (0, 0)
  * (main.go, lines 96-97, 115-116, 133-134 and 150-151). */
module Geometry {
  /** image.Point. */
  datatype Point = Point(x: int, y: int)

  /** The point a linear pixel index denotes: column pixel % width, row pixel / width. */
  function PointOf(pixel: nat, width: nat): (pt: Point)
    requires width > 0
    ensures 0 <= pt.x < width && 0 <= pt.y
    ensures pt.y * width + pt.x == pixel
  {
    Point(pixel % width, pixel / width)
  }

  /** Linear offset of a point in a row-major rectangle of the given width, as
    * image.RGBA's PixOffset computes it (counted in pixels, not bytes) when the
    * rectangle starts at (0, 0). */
  function IndexOf(pt: Point, width: nat): (i: int)
    ensures 0 <= pt.x < width ==> pt.y * width <= i < pt.y * width + width
  {
    pt.y * width + pt.x
  }

  /** Whether a point lies in the rectangle [0, width) x [0, height). */
  predicate InRect(pt: Point, width: nat, height: nat)
  {
    0 <= pt.x < width && 0 <= pt.y < height
  }

  lemma MulLeft(a: int, b: int, w: nat)
    requires a <= b
    ensures a * w <= b * w
  {
  }

  /** Every index of a width-by-height buffer denotes a point inside the rectangle. */
  lemma PointOfInRect(pixel: nat, width: nat, height: nat)
    requires width > 0 && pixel < width * height
    ensures InRect(PointOf(pixel, width), width, height)
    ensures IndexOf(PointOf(pixel, width), width) == pixel
  {
    var pt := PointOf(pixel, width);
    if pt.y >= height {
      MulLeft(height, pt.y, width);
      assert false;
    }
  }

  /** Every point inside the rectangle has an index of the buffer. */
  lemma IndexOfInRange(pt: Point, width: nat, height: nat)
    requires InRect(pt, width, height)
    ensures 0 <= IndexOf(pt, width) < width * height
  {
    MulLeft(pt.y + 1, height, width);
  }

  /** Converting a point to its index and back gives the point. */
  lemma PointOfIndexOf(pt: Point, width: nat, height: nat)
    requires InRect(pt, width, height)
    ensures PointOf(IndexOf(pt, width), width) == pt
  {
    IndexOfInRange(pt, width, height);
    var q := PointOf(IndexOf(pt, width), width);
    assert (q.y - pt.y) * width == pt.x - q.x;
    if q.y > pt.y {
      MulLeft(1, q.y - pt.y, width);
    } else if q.y < pt.y {
      MulLeft(1, pt.y - q.y, width);
    }
  }

  /** Distinct points of the rectangle have distinct indices, and distinct indices
    * denote distinct points: no two tasks address the same pixel. */
  lemma IndexOfInjective(p: nat, q: nat, width: nat)
    requires width > 0
    ensures p != q <==> PointOf(p, width) != PointOf(q, width)
  {
  }
}
