/** The RGBA pixel buffer (Go's image.RGBA) whose rectangle starts at (0, 0), and the
  * copy cloneImage makes of it (main.go, lines 81-92). */
module Raster {
  import opened Color
  import opened Geometry

  /** An image.RGBA with bounds [0, width) x [0, height). Its pixels are stored in row-major
    * order, one Pixel (four bytes) per element, so the pixel at (x, y) is pix[y * width + x]. */
  class Image {
    var width: nat
    var height: nat
    var pix: array<Pixel>

    ghost predicate Valid()
      reads this
    {
      pix.Length == width * height
    }

    /** image.NewRGBA: a fresh buffer of the given bounds with every byte zero. */
    constructor (w: nat, h: nat)
      ensures Valid() && width == w && height == h && fresh(pix)
      ensures forall p :: 0 <= p < pix.Length ==> pix[p] == Transparent
    {
      width, height := w, h;
      pix := new Pixel[w * h](_ => Transparent);
    }

    /** Whether (x, y) lies inside the image's bounds. */
    predicate In(x: int, y: int)
      reads this
    {
      InRect(Point(x, y), width, height)
    }

    /** image.RGBA's At: the pixel at (x, y), or the zero colour outside the bounds. */
    function At(x: int, y: int): (c: Pixel)
      reads this, pix
      requires Valid()
      ensures In(x, y) ==> 0 <= IndexOf(Point(x, y), width) < pix.Length &&
                           c == pix[IndexOf(Point(x, y), width)]
      ensures !In(x, y) ==> c == Transparent
    {
      if In(x, y) then
        IndexOfInRange(Point(x, y), width, height);
        pix[IndexOf(Point(x, y), width)]
      else
        Transparent
    }

    /** image.RGBA's Set for a colour that is already an RGBA value: writes the pixel at
      * (x, y); outside the bounds it does nothing. */
    method Set(x: int, y: int, c: Pixel)
      requires Valid()
      modifies pix
      ensures Valid()
      ensures In(x, y) ==> 0 <= IndexOf(Point(x, y), width) < pix.Length &&
                           pix[..] == old(pix[..])[IndexOf(Point(x, y), width) := c]
      ensures !In(x, y) ==> pix[..] == old(pix[..])
    {
      if In(x, y) {
        IndexOfInRange(Point(x, y), width, height);
        pix[IndexOf(Point(x, y), width)] := c;
      }
    }
  }

  /** cloneImage: a new buffer of the same bounds, filled row by row with the source's
    * pixels. The clone shares no storage with the source. */
  method CloneImage(src: Image) returns (clone: Image)
    requires src.Valid()
    ensures fresh(clone) && fresh(clone.pix) && clone.Valid()
    ensures clone.width == src.width && clone.height == src.height
    ensures clone.pix[..] == src.pix[..]
  {
    var w, h := src.width, src.height;
    clone := new Image(w, h);
    ghost var done := 0;  // pixels copied so far, always y * w + x
    var y := 0;
    while y < h
      invariant 0 <= y <= h && done == y * w
      invariant fresh(clone) && fresh(clone.pix) && clone.Valid()
      invariant clone.width == w && clone.height == h
      invariant done <= src.pix.Length && clone.pix[..done] == src.pix[..done]
    {
      var x := 0;
      while x < w
        invariant 0 <= x <= w && done == y * w + x
        invariant fresh(clone) && fresh(clone.pix) && clone.Valid()
        invariant clone.width == w && clone.height == h
        invariant done <= src.pix.Length && clone.pix[..done] == src.pix[..done]
      {
        assert IndexOf(Point(x, y), w) == done;
        var c := src.At(x, y);
        assert c == src.pix[done];
        clone.Set(x, y, c);
        assert clone.pix[done] == src.pix[done];
        assert clone.pix[..done + 1] == clone.pix[..done] + [clone.pix[done]];
        x, done := x + 1, done + 1;
      }
      assert done == (y + 1) * w;
      y := y + 1;
    }
    assert done == src.pix.Length;
  }
}
