/**
 * The axes overlay: a flat list of line-segment coordinates (x0, y0, x1,
 * y1 per segment) holding the real axis from -1.1 to 1.1 with an
 * arrowhead at 1.1 and 21 ticks at -1, -0.9, .., 1, followed by the same
 * vertices with x and y swapped, which draws the imaginary axis. The
 * vertex shader maps plane points to clip space through the view.
 */
module Axes {
  import opened Vec2
  import opened ComplexPlane

  /** Half the axis length `l`, the arrowhead size `a` and `tickSize`. */
  const AxisEnd: real := 1.1
  const Arrow: real := 0.05
  const TickSize: real := 0.025

  /** Three segments for the axis and arrowhead, one per tick. */
  const TickCount: nat := 21
  const SegmentCount: nat := 3 + TickCount
  /** The length of the list before it is mirrored: 96 numbers, 48 vertices. */
  const BaseLength: nat := 4 * SegmentCount

  datatype Segment = Segment(from: Vec2, to: Vec2)

  /** Segment `k` of a coordinate list: numbers 4k .. 4k+3. */
  function SegmentAt(lines: seq<real>, k: nat): Segment
    requires 4 * k + 4 <= |lines|
  {
    Segment(Vec2(lines[4 * k], lines[4 * k + 1]), Vec2(lines[4 * k + 2], lines[4 * k + 3]))
  }

  /** Vertex `v` of a coordinate list: numbers 2v and 2v+1. */
  function VertexAt(lines: seq<real>, v: nat): Vec2
    requires 2 * v + 2 <= |lines|
  {
    Vec2(lines[2 * v], lines[2 * v + 1])
  }

  function Swap(p: Vec2): Vec2 {
    Vec2(p.y, p.x)
  }

  /** The tick at `i / 10` for -10 <= i <= 10: a short segment straight down from the axis. */
  function Tick(i: int): Segment {
    var x := i as real / 10.0;
    Segment(Vec2(x, 0.0), Vec2(x, -TickSize))
  }

  /** The segments before mirroring: the axis, the two arrowhead strokes, then the ticks from left to right. */
  function BaseSegment(k: nat): Segment
    requires k < SegmentCount
  {
    if k == 0 then Segment(Vec2(-AxisEnd, 0.0), Vec2(AxisEnd, 0.0))
    else if k == 1 then Segment(Vec2(AxisEnd, 0.0), Vec2(AxisEnd - Arrow, Arrow))
    else if k == 2 then Segment(Vec2(AxisEnd, 0.0), Vec2(AxisEnd - Arrow, -Arrow))
    else Tick(k - 13)
  }

  /** The constructor's construction of `lines`. */
  method BuildLines() returns (lines: seq<real>)
    ensures |lines| == 2 * BaseLength
    ensures forall k :: 0 <= k < SegmentCount ==> SegmentAt(lines, k) == BaseSegment(k)
    ensures forall w :: BaseLength / 2 <= w < BaseLength ==> VertexAt(lines, w) == Swap(VertexAt(lines, w - BaseLength / 2))
  {
    var l, a := AxisEnd, Arrow;
    lines := [];
    lines := lines + [-l, 0.0, l, 0.0];
    lines := lines + [l, 0.0, l - a, a];
    lines := lines + [l, 0.0, l - a, -a];
    var i := -10;
    while i <= 10
      invariant -10 <= i <= 11 && |lines| == 4 * (i + 13)
      invariant forall k :: 0 <= k < i + 13 ==> SegmentAt(lines, k) == BaseSegment(k)
    {
      var x := i as real / 10.0;
      lines := lines + [x, 0.0, x, -TickSize];
      i := i + 1;
    }
    ghost var base := lines;
    var s := |lines|;
    var j := 0;
    while j < s
      invariant 0 <= j <= s && j % 2 == 0 && |lines| == s + j
      invariant lines[..s] == base
      invariant forall w :: s / 2 <= w < (s + j) / 2 ==> VertexAt(lines, w) == Swap(VertexAt(lines, w - s / 2))
    {
      ghost var before := lines;
      lines := lines + [lines[j + 1], lines[j]];
      assert forall w :: 0 <= w < (s + j) / 2 ==> VertexAt(lines, w) == VertexAt(before, w);
      assert VertexAt(lines, (s + j) / 2) == Swap(VertexAt(lines, j / 2));
      j := j + 2;
    }
    assert forall k :: 0 <= k < SegmentCount ==> SegmentAt(lines, k) == SegmentAt(base, k);
  }

  /** Tick `i` (-10 <= i <= 10) is segment `i + 13` and runs from (i/10, 0) down to (i/10, -0.025). */
  lemma TickPositions(i: int)
    requires -10 <= i <= 10
    ensures 0 <= i + 13 < SegmentCount
    ensures BaseSegment(i + 13).from == Vec2(i as real / 10.0, 0.0)
    ensures BaseSegment(i + 13).to == Vec2(i as real / 10.0, -TickSize)
    ensures -1.0 <= BaseSegment(i + 13).from.x <= 1.0
  {
  }

  /** Every base segment starts on the real axis, within the axis's extent. */
  lemma BaseOnRealAxis(k: nat)
    requires k < SegmentCount
    ensures BaseSegment(k).from.y == 0.0
    ensures -AxisEnd <= BaseSegment(k).from.x <= AxisEnd
  {
  }

  /** Both arrowhead strokes start at the tip (1.1, 0) and lean back symmetrically. */
  lemma ArrowheadAtTip()
    ensures BaseSegment(1).from == BaseSegment(2).from == Vec2(AxisEnd, 0.0)
    ensures BaseSegment(1).to.x == BaseSegment(2).to.x < AxisEnd
    ensures BaseSegment(1).to.y == -BaseSegment(2).to.y > 0.0
  {
  }

  /** The mirrored half starts on the imaginary axis: its vertices have x = 0 wherever the base ones have y = 0. */
  lemma MirrorOnImaginaryAxis(lines: seq<real>, w: nat)
    requires |lines| == 2 * BaseLength
    requires forall w :: BaseLength / 2 <= w < BaseLength ==> VertexAt(lines, w) == Swap(VertexAt(lines, w - BaseLength / 2))
    requires w < BaseLength / 2 && VertexAt(lines, w).y == 0.0
    ensures VertexAt(lines, w + BaseLength / 2) == Vec2(0.0, VertexAt(lines, w).x)
  {
    assert VertexAt(lines, w + BaseLength / 2) == Swap(VertexAt(lines, w + BaseLength / 2 - BaseLength / 2));
  }

  /** Segment `k + 24` is segment `k` with each end's coordinates swapped: the imaginary axis, its arrowhead and ticks. */
  lemma MirroredSegment(lines: seq<real>, k: nat)
    requires |lines| == 2 * BaseLength
    requires forall w :: BaseLength / 2 <= w < BaseLength ==> VertexAt(lines, w) == Swap(VertexAt(lines, w - BaseLength / 2))
    requires k < SegmentCount
    ensures SegmentAt(lines, k + SegmentCount) == Segment(Swap(SegmentAt(lines, k).from), Swap(SegmentAt(lines, k).to))
  {
    assert VertexAt(lines, 2 * k + BaseLength / 2) == Swap(VertexAt(lines, 2 * k + BaseLength / 2 - BaseLength / 2));
    assert VertexAt(lines, 2 * k + 1 + BaseLength / 2) == Swap(VertexAt(lines, 2 * k + 1 + BaseLength / 2 - BaseLength / 2));
  }

  /** The vertex shader: `(position - center) / zoom * 2.0`. */
  function ClipPosition(u: PlaneUniforms, position: Vec2): Vec2
    requires u.zoom.x != 0.0 && u.zoom.y != 0.0
  {
    Vec2((position.x - u.center.x) / u.zoom.x * 2.0, (position.y - u.center.y) / u.zoom.y * 2.0)
  }

  /**
   * A plane point drawn by the axes lands where the shaders show it: the
   * point of the canvas coordinate `pixel` goes to clip coordinate
   * 2 * pixel - 1.
   */
  lemma ClipMatchesView(u: PlaneUniforms, pixel: Vec2)
    requires u.zoom.x != 0.0 && u.zoom.y != 0.0
    ensures ClipPosition(u, Point(u, pixel)) == Vec2(2.0 * pixel.x - 1.0, 2.0 * pixel.y - 1.0)
  {
    ClipAxis(u.center.x, u.zoom.x, pixel.x - 0.5);
    ClipAxis(u.center.y, u.zoom.y, pixel.y - 0.5);
  }

  lemma ClipAxis(c: real, z: real, w: real)
    requires z != 0.0
    ensures ((c + z * w) - c) / z * 2.0 == 2.0 * w
  {
    assert (c + z * w) - c == z * w;
    DivCancel(w, z);
  }
}
