/**
 * Rasterisation: `drawPointToImage` projects a point to the screen and
 * paints a filled (2r+1) x (2r+1) square around it, clipped to the screen,
 * into a width x height x 3 byte image addressed as (x, y, channel).
 */
module Raster {
  import opened Geometry
  import opened Viewport

  /** `unsigned char`. */
  type Byte = b: int | 0 <= b < 256

  /** Pixel (px, py) lies in the square of radius r around (cx, cy) and on the screen. */
  predicate InSquare(cx: int, cy: int, r: int, px: int, py: int, width: int, height: int)
  {
    cx - r <= px <= cx + r && cy - r <= py <= cy + r && 0 <= px < width && 0 <= py < height
  }

  /** Pixel (px, py) is painted by a stamp of radius r at point p. */
  predicate Stamped(p: Point, r: int, v: View, px: int, py: int)
  {
    InSquare(ScreenX(p, v), ScreenY(p, v), r, px, py, v.width, v.height)
  }

  /** The image can hold every pixel of the screen, with at least three channels. */
  predicate Fits(image: array3<Byte>, v: View)
  {
    v.width <= image.Length0 && v.height <= image.Length1 && 3 <= image.Length2
  }

  /**
   * `drawPointToImage(radius, image, point, color, ...)`: exactly the on-screen
   * pixels within `radius` of the projected point, in both axes, get `color`
   * in channels 0 to 2; every other value of the image is unchanged.
   */
  method DrawPointToImage(radius: int, image: array3<Byte>, p: Point, color: seq<Byte>, v: View)
    requires |color| >= 3
    requires Fits(image, v)
    modifies image
    ensures forall px, py, ch :: 0 <= px < image.Length0 && 0 <= py < image.Length1 && 0 <= ch < image.Length2 ==>
      image[px, py, ch] == if ch < 3 && Stamped(p, radius, v, px, py) then color[ch] else old(image[px, py, ch])
  {
    var x := ScreenX(p, v);
    var y := ScreenY(p, v);
    var i := -radius;
    while i <= radius
      invariant -radius <= i <= radius + 1 || radius < 0
      invariant forall px, py, ch :: 0 <= px < image.Length0 && 0 <= py < image.Length1 && 0 <= ch < image.Length2 ==>
        image[px, py, ch] == if ch < 3 && px < x + i && InSquare(x, y, radius, px, py, v.width, v.height)
                             then color[ch] else old(image[px, py, ch])
    {
      var j := -radius;
      while j <= radius
        invariant -radius <= j <= radius + 1
        invariant forall px, py, ch :: 0 <= px < image.Length0 && 0 <= py < image.Length1 && 0 <= ch < image.Length2 ==>
          image[px, py, ch] == if ch < 3 && (px < x + i || (px == x + i && py < y + j)) && InSquare(x, y, radius, px, py, v.width, v.height)
                               then color[ch] else old(image[px, py, ch])
      {
        if x + i >= 0 && x + i < v.width && y + j >= 0 && y + j < v.height {
          image[x + i, y + j, 0] := color[0];
          image[x + i, y + j, 1] := color[1];
          image[x + i, y + j, 2] := color[2];
        }
        j := j + 1;
      }
      i := i + 1;
    }
  }

  /** Pixel (px, py) is painted by a stamp of radius r at one of the first k points. */
  predicate StampedBy(pts: seq<Point>, k: int, r: int, v: View, px: int, py: int)
    requires 0 <= k <= |pts|
  {
    exists j :: 0 <= j < k && Stamped(pts[j], r, v, px, py)
  }

  /**
   * A drawing loop over a list of points, one `drawPointToImage` each: a pixel
   * gets `color` in channels 0 to 2 exactly when the stamp of some point
   * covers it; every other value of the image is unchanged.
   */
  method DrawPoints(radius: int, image: array3<Byte>, pts: seq<Point>, color: seq<Byte>, v: View)
    requires |color| >= 3
    requires Fits(image, v)
    modifies image
    ensures forall px, py, ch :: 0 <= px < image.Length0 && 0 <= py < image.Length1 && 0 <= ch < image.Length2 ==>
      image[px, py, ch] == if ch < 3 && StampedBy(pts, |pts|, radius, v, px, py) then color[ch] else old(image[px, py, ch])
  {
    var k := 0;
    while k < |pts|
      invariant 0 <= k <= |pts|
      invariant forall px, py, ch :: 0 <= px < image.Length0 && 0 <= py < image.Length1 && 0 <= ch < image.Length2 ==>
        image[px, py, ch] == if ch < 3 && StampedBy(pts, k, radius, v, px, py) then color[ch] else old(image[px, py, ch])
    {
      DrawPointToImage(radius, image, pts[k], color, v);
      k := k + 1;
    }
  }

  /** `image.fill(value)`: every value of the image becomes `value`. */
  method Fill(image: array3<Byte>, value: Byte)
    modifies image
    ensures forall px, py, ch :: 0 <= px < image.Length0 && 0 <= py < image.Length1 && 0 <= ch < image.Length2 ==>
      image[px, py, ch] == value
  {
    forall px, py, ch | 0 <= px < image.Length0 && 0 <= py < image.Length1 && 0 <= ch < image.Length2 {
      image[px, py, ch] := value;
    }
  }
}
