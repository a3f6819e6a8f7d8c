/**
 * The view onto the complex plane shared by every shader: a centre, a zoom
 * (the extent shown along the shorter side of the canvas) and the canvas
 * size. The getters turn it into the `center` and `zoom` uniforms, and the
 * GLSL `point()` maps a pixel's normalised coordinate in [0,1]^2 to the
 * complex number it shows.
 */
module ComplexPlane {
  import opened Vec2

  datatype Plane = Plane(center: Vec2, zoom: real, size: Vec2)

  /** The field initialisers: centre 0, zoom 3, a 100 by 100 canvas. */
  const DefaultPlane := Plane(Vec2(0.0, 0.0), 3.0, Vec2(100.0, 100.0))

  /** The uniforms handed to the shaders: `zoom` is one extent per axis. */
  datatype PlaneUniforms = PlaneUniforms(center: Vec2, zoom: Vec2)

  /** `vmin`: the shorter side of the canvas. */
  function Vmin(p: Plane): (r: real)
    ensures r <= p.size.x && r <= p.size.y
    ensures r == p.size.x || r == p.size.y
  {
    if p.size.x <= p.size.y then p.size.x else p.size.y
  }

  /** `scaleFactor`: plane units per pixel. */
  function ScaleFactor(p: Plane): (f: real)
    requires Vmin(p) != 0.0
    ensures f * Vmin(p) == p.zoom
  {
    p.zoom / Vmin(p)
  }

  /** `uniforms`: the centre unchanged and each side scaled by the factor. */
  function Uniforms(p: Plane): (u: PlaneUniforms)
    requires Vmin(p) != 0.0
    ensures u.center == p.center
    ensures u.zoom.x * Vmin(p) == p.zoom * p.size.x
    ensures u.zoom.y * Vmin(p) == p.zoom * p.size.y
  {
    var f := ScaleFactor(p);
    PlaneUniforms(p.center, Vec2(f * p.size.x, f * p.size.y))
  }

  /** The extent along the shorter side is exactly `zoom`. */
  lemma ShorterSideIsZoom(p: Plane)
    requires Vmin(p) != 0.0
    ensures p.size.x <= p.size.y ==> Uniforms(p).zoom.x == p.zoom
    ensures p.size.y <= p.size.x ==> Uniforms(p).zoom.y == p.zoom
  {
    var u := Uniforms(p);
    if p.size.x <= p.size.y {
      assert u.zoom.x * p.size.x == p.zoom * p.size.x;
    }
    if p.size.y <= p.size.x {
      assert u.zoom.y * p.size.y == p.zoom * p.size.y;
    }
  }

  /**
   * For a positive canvas and a positive zoom the smaller of the two
   * extents is `zoom`: the longer side shows more of the plane, never less.
   */
  lemma SmallerExtentIsZoom(p: Plane)
    requires p.size.x > 0.0 && p.size.y > 0.0 && p.zoom > 0.0
    ensures p.zoom <= Uniforms(p).zoom.x && p.zoom <= Uniforms(p).zoom.y
    ensures Uniforms(p).zoom.x == p.zoom || Uniforms(p).zoom.y == p.zoom
  {
    var u := Uniforms(p);
    var m := Vmin(p);
    ShorterSideIsZoom(p);
    assert u.zoom.x * m >= p.zoom * m;
    assert u.zoom.y * m >= p.zoom * m;
  }

  /** The extents keep the canvas's aspect ratio, so pixels stay square. */
  lemma UniformsKeepAspect(p: Plane)
    requires Vmin(p) != 0.0
    ensures Uniforms(p).zoom.x * p.size.y == Uniforms(p).zoom.y * p.size.x
  {
  }

  lemma DefaultUniforms()
    ensures Uniforms(DefaultPlane) == PlaneUniforms(Vec2(0.0, 0.0), Vec2(3.0, 3.0))
  {
    assert ScaleFactor(DefaultPlane) * 100.0 == 3.0;
  }

  /** The GLSL `point()`: `center + zoom * (vPixel - 0.5)`, componentwise. */
  function Point(u: PlaneUniforms, pixel: Vec2): Vec2 {
    Vec2(u.center.x + u.zoom.x * (pixel.x - 0.5), u.center.y + u.zoom.y * (pixel.y - 0.5))
  }

  /** The pixel a point of the plane falls on: the inverse of `Point`. */
  function PixelOf(u: PlaneUniforms, q: Vec2): Vec2
    requires u.zoom.x != 0.0 && u.zoom.y != 0.0
  {
    Vec2((q.x - u.center.x) / u.zoom.x + 0.5, (q.y - u.center.y) / u.zoom.y + 0.5)
  }

  /** The middle of the canvas shows the centre. */
  lemma PointAtMiddle(u: PlaneUniforms)
    ensures Point(u, Vec2(0.5, 0.5)) == u.center
  {
  }

  /** The canvas corners show the centre minus and plus half the extents. */
  lemma PointAtCorners(u: PlaneUniforms)
    ensures Point(u, Vec2(0.0, 0.0)) == Vec2(u.center.x - u.zoom.x / 2.0, u.center.y - u.zoom.y / 2.0)
    ensures Point(u, Vec2(1.0, 1.0)) == Vec2(u.center.x + u.zoom.x / 2.0, u.center.y + u.zoom.y / 2.0)
  {
  }

  /** `v` lies within half of the extent `z` of the centre `c`. */
  predicate WithinHalf(c: real, z: real, v: real) {
    c - z / 2.0 <= v <= c + z / 2.0
  }

  /** Every pixel of the canvas shows a point within half an extent of the centre. */
  lemma PointWithinView(u: PlaneUniforms, pixel: Vec2)
    requires u.zoom.x >= 0.0 && u.zoom.y >= 0.0
    requires 0.0 <= pixel.x <= 1.0 && 0.0 <= pixel.y <= 1.0
    ensures WithinHalf(u.center.x, u.zoom.x, Point(u, pixel).x)
    ensures WithinHalf(u.center.y, u.zoom.y, Point(u, pixel).y)
  {
    AxisWithinView(u.center.x, u.zoom.x, pixel.x - 0.5);
    AxisWithinView(u.center.y, u.zoom.y, pixel.y - 0.5);
  }

  lemma AxisWithinView(c: real, z: real, w: real)
    requires z >= 0.0 && -0.5 <= w <= 0.5
    ensures WithinHalf(c, z, c + z * w)
  {
    assert z * w <= z * 0.5;
    assert z * -0.5 <= z * w;
  }

  lemma PixelOfPoint(u: PlaneUniforms, pixel: Vec2)
    requires u.zoom.x != 0.0 && u.zoom.y != 0.0
    ensures PixelOf(u, Point(u, pixel)) == pixel
  {
    Unscale(u.center.x, u.zoom.x, pixel.x - 0.5, pixel.x);
    Unscale(u.center.y, u.zoom.y, pixel.y - 0.5, pixel.y);
  }

  lemma PointOfPixel(u: PlaneUniforms, q: Vec2)
    requires u.zoom.x != 0.0 && u.zoom.y != 0.0
    ensures Point(u, PixelOf(u, q)) == q
  {
    Rescale(u.zoom.x, q.x - u.center.x);
    Rescale(u.zoom.y, q.y - u.center.y);
  }

  lemma Unscale(c: real, z: real, w: real, t: real)
    requires z != 0.0 && w == t - 0.5
    ensures ((c + z * w) - c) / z + 0.5 == t
  {
    assert (c + z * w) - c == z * w;
    DivCancel(w, z);
  }

  lemma DivCancel(a: real, z: real)
    requires z != 0.0
    ensures (z * a) / z == a
  {
  }

  lemma Rescale(z: real, d: real)
    requires z != 0.0
    ensures z * (d / z + 0.5 - 0.5) == d
  {
  }
}
