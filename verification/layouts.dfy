/**
  `Point`, `Orientation`, `Layout`, `to_pixel`, `pixel_to_hex` and `corners`
  of fire_fight/hexgon.py, over exact reals.

  The square root of 3 in the two orientation constants is a parameter
  constrained by `IsSqrt3`. The cosine and sine of the corner angles are a
  caller-supplied `UnitCircle` that maps an angle in turns to
  (cos, sin) of that angle.
*/
module Layouts {
  import opened Wrappers
  import opened Hexes
  import opened Rounding

  datatype Point = Point(x: real, y: real)

  /** Forward (f) and backward (b) matrices and the corner start angle in turns. */
  datatype Orientation = Orientation(
    f0: real, f1: real, f2: real, f3: real,
    b0: real, b1: real, b2: real, b3: real,
    startAngle: real)

  /** A layout with the six corner offsets derived at construction. */
  datatype Layout = Layout(orientation: Orientation, size: Point, origin: Point, cornerOffsets: seq<Point>)

  /** `(cos(2*pi*t), sin(2*pi*t))` for an angle of t turns. */
  type UnitCircle = real -> Point

  predicate IsSqrt3(x: real) {
    x > 0.0 && x * x == 3.0
  }

  /** The backward matrix is the inverse of the forward one. */
  predicate Inverts(m: Orientation) {
    && m.b0 * m.f0 + m.b1 * m.f2 == 1.0
    && m.b0 * m.f1 + m.b1 * m.f3 == 0.0
    && m.b2 * m.f0 + m.b3 * m.f2 == 0.0
    && m.b2 * m.f1 + m.b3 * m.f3 == 1.0
  }

  /** `m` reflected in the diagonal x == y with the axes q and r exchanged:
      the forward and backward matrices are read back to front, and the
      corners turn by half a corner. */
  predicate Mirrors(m: Orientation, n: Orientation) {
    && m.f0 == n.f3 && m.f1 == n.f2 && m.f2 == n.f1 && m.f3 == n.f0
    && m.b0 == n.b3 && m.b1 == n.b2 && m.b2 == n.b1 && m.b3 == n.b0
    && m.startAngle == n.startAngle - 0.5
  }

  /** `layout_pointy`, with sqrt3 standing for `math.sqrt(3.0)`. A step in q
      moves a hex horizontally only, the first corner is half a corner off
      the x axis, and for the true square root the matrices invert. */
  function PointyTop(sqrt3: real): (o: Orientation)
    ensures o.f2 == 0.0 && o.b2 == 0.0
    ensures o.startAngle == 0.5
    ensures IsSqrt3(sqrt3) ==> Inverts(o)
  {
    if IsSqrt3(sqrt3) then ThirdOfSquare(sqrt3); PointyMatrices(sqrt3)
    else PointyMatrices(sqrt3)
  }

  function PointyMatrices(sqrt3: real): Orientation {
    Orientation(sqrt3, sqrt3 / 2.0, 0.0, 3.0 / 2.0,
                sqrt3 / 3.0, -1.0 / 3.0, 0.0, 2.0 / 3.0,
                0.5)
  }

  /** `layout_flat`, with sqrt3 standing for `math.sqrt(3.0)`: the pointy-top
      orientation mirrored in the diagonal, so a step in r moves a hex
      vertically only and the first corner lies on the x axis. */
  function FlatTop(sqrt3: real): (o: Orientation)
    ensures Mirrors(o, PointyTop(sqrt3))
    ensures o.f1 == 0.0 && o.startAngle == 0.0
  {
    Orientation(3.0 / 2.0, 0.0, sqrt3 / 2.0, sqrt3,
                2.0 / 3.0, 0.0, -1.0 / 3.0, sqrt3 / 3.0,
                0.0)
  }

  /** sqrt3 times a third of sqrt3 is 1. */
  lemma ThirdOfSquare(sqrt3: real)
    requires IsSqrt3(sqrt3)
    ensures sqrt3 / 3.0 * sqrt3 == 1.0
    ensures sqrt3 / 3.0 * (sqrt3 / 2.0) == 0.5
  {
  }

  /** Mirroring keeps a pair of inverse matrices inverse. */
  lemma MirrorInverts(m: Orientation, n: Orientation)
    requires Mirrors(m, n) && Inverts(n)
    ensures Inverts(m)
  {
  }

  /** Both orientation constants carry mutually inverse matrices. */
  lemma OrientationsInvert(sqrt3: real)
    requires IsSqrt3(sqrt3)
    ensures Inverts(PointyTop(sqrt3))
    ensures Inverts(FlatTop(sqrt3))
  {
    MirrorInverts(FlatTop(sqrt3), PointyTop(sqrt3));
  }

  /** `hex_corner_offset(layout, corner)`: the angle is (start_angle + corner) / 6
      turns, and the offset is that point of the unit circle stretched by the
      size. With equal size components it lies on the circle of that radius,
      and it points along the x axis when the angle's sine is 0. */
  function CornerOffset(m: Orientation, size: Point, corner: int, unit: UnitCircle): (p: Point)
    ensures var u := unit((m.startAngle + corner as real) / 6.0);
      u.x * u.x + u.y * u.y == 1.0 && size.x == size.y ==> p.x * p.x + p.y * p.y == size.x * size.x
    ensures unit((m.startAngle + corner as real) / 6.0).y == 0.0 ==> p.y == 0.0
  {
    var u := unit((m.startAngle + corner as real) / 6.0);
    ScaledCircle(size.x, size.y, u.x, u.y);
    Point(size.x * u.x, size.y * u.y)
  }

  /** Stretching a point of the unit circle by (a, a) lands on the circle of radius a. */
  lemma ScaledCircle(a: real, b: real, x: real, y: real)
    ensures x * x + y * y == 1.0 && a == b ==> (a * x) * (a * x) + (b * y) * (b * y) == a * a
  {
    if x * x + y * y == 1.0 && a == b {
      calc {
        (a * x) * (a * x) + (b * y) * (b * y);
        a * a * (x * x + y * y);
        a * a;
      }
    }
  }

  /** `Layout(orientation, size, origin)`: six offsets, one per corner, that
      depend on the orientation and size only. */
  function MkLayout(m: Orientation, size: Point, origin: Point, unit: UnitCircle): (l: Layout)
    ensures l.orientation == m && l.size == size && l.origin == origin
    ensures |l.cornerOffsets| == 6
    ensures forall i :: 0 <= i < 6 ==> l.cornerOffsets[i] == CornerOffset(m, size, i, unit)
  {
    Layout(m, size, origin, seq(6, i => CornerOffset(m, size, i, unit)))
  }

  /** Moving the origin leaves the corner offsets as they are. */
  lemma CornerOffsetsIgnoreOrigin(m: Orientation, size: Point, o1: Point, o2: Point, unit: UnitCircle)
    ensures MkLayout(m, size, o1, unit).cornerOffsets == MkLayout(m, size, o2, unit).cornerOffsets
  {
  }

  /** The forward matrix applied to axial (q, r), scaled by size. */
  function Forward(m: Orientation, size: Point, q: real, r: real): Point {
    Point((m.f0 * q + m.f1 * r) * size.x, (m.f2 * q + m.f3 * r) * size.y)
  }

  /** `Hex.to_pixel(layout)`: the forward matrix scaled by size, shifted by origin. */
  function ToPixel(l: Layout, h: Hex): (p: Point)
    ensures h == Origin ==> p == l.origin
  {
    var v := Forward(l.orientation, l.size, h.q as real, h.r as real);
    Point(v.x + l.origin.x, v.y + l.origin.y)
  }

  /** A pixel in layout-local units: shifted by the origin, divided by the size. */
  function LocalPoint(l: Layout, p: Point): Point
    requires l.size.x != 0.0 && l.size.y != 0.0
  {
    Point((p.x - l.origin.x) / l.size.x, (p.y - l.origin.y) / l.size.y)
  }

  /** The fractional axial coordinates (q, r) of a layout-local point. */
  function Backward(m: Orientation, pt: Point): (real, real) {
    (m.b0 * pt.x + m.b1 * pt.y, m.b2 * pt.x + m.b3 * pt.y)
  }

  /** `pixel_to_hex(layout, p)`: raises (division by zero) when a size
      component is 0; otherwise rounds the fractional hex under p. */
  function PixelToHex(l: Layout, p: Point): (h: Option<Hex>)
    ensures h.Some? <==> l.size.x != 0.0 && l.size.y != 0.0
  {
    if l.size.x == 0.0 || l.size.y == 0.0 then None
    else
      var (q, r) := Backward(l.orientation, LocalPoint(l, p));
      Some(HexRound(q, r, -q - r))
  }

  /** `Hex.corners(layout)`: the centre shifted by each cached corner offset, in order. */
  function Corners(l: Layout, h: Hex): (cs: seq<Point>)
    ensures |cs| == |l.cornerOffsets|
    ensures forall i :: 0 <= i < |cs| ==>
      cs[i].x - l.cornerOffsets[i].x == ToPixel(l, h).x && cs[i].y - l.cornerOffsets[i].y == ToPixel(l, h).y
  {
    var center := ToPixel(l, h);
    seq(|l.cornerOffsets|, i requires 0 <= i < |l.cornerOffsets| =>
      Point(center.x + l.cornerOffsets[i].x, center.y + l.cornerOffsets[i].y))
  }

  /** Round trip: converting a hex to pixels and back yields the hex,
      whenever the backward matrix inverts the forward one and no size
      component is 0. */
  lemma PixelRoundTrip(l: Layout, h: Hex)
    requires Inverts(l.orientation)
    requires l.size.x != 0.0 && l.size.y != 0.0
    ensures PixelToHex(l, ToPixel(l, h)) == Some(h)
  {
    var m := l.orientation;
    var qr, rr := h.q as real, h.r as real;
    var p := ToPixel(l, h);
    var local := LocalPoint(l, p);
    assert local == Point(m.f0 * qr + m.f1 * rr, m.f2 * qr + m.f3 * rr) by {
      LocalOfToPixel(l, h);
    }
    assert Backward(m, local) == (qr, rr) by {
      BackwardOfForward(m, qr, rr);
    }
    assert PixelToHex(l, p) == Some(HexRound(qr, rr, -qr - rr));
    assert -qr - rr == h.s as real;
    HexRoundOfHex(h);
  }

  /** Normalising a hex's pixel undoes the size scaling and the origin shift. */
  lemma LocalOfToPixel(l: Layout, h: Hex)
    requires l.size.x != 0.0 && l.size.y != 0.0
    ensures var m := l.orientation;
      LocalPoint(l, ToPixel(l, h)) == Point(m.f0 * h.q as real + m.f1 * h.r as real, m.f2 * h.q as real + m.f3 * h.r as real)
  {
    var m := l.orientation;
    var p := ToPixel(l, h);
    ScaleCancel(m.f0 * h.q as real + m.f1 * h.r as real, l.size.x, l.origin.x);
    ScaleCancel(m.f2 * h.q as real + m.f3 * h.r as real, l.size.y, l.origin.y);
  }

  /** The backward matrix undoes the forward one. */
  lemma BackwardOfForward(m: Orientation, q: real, r: real)
    requires Inverts(m)
    ensures Backward(m, Point(m.f0 * q + m.f1 * r, m.f2 * q + m.f3 * r)) == (q, r)
  {
    var local := Point(m.f0 * q + m.f1 * r, m.f2 * q + m.f3 * r);
    MatrixProduct(m.b0, m.b1, m.f0, m.f1, m.f2, m.f3, q, r);
    MatrixProduct(m.b2, m.b3, m.f0, m.f1, m.f2, m.f3, q, r);
    assert m.b0 * local.x + m.b1 * local.y == 1.0 * q + 0.0 * r;
    assert m.b2 * local.x + m.b3 * local.y == 0.0 * q + 1.0 * r;
    assert Backward(m, local).0 == q;
    assert Backward(m, local).1 == r;
  }

  lemma ScaleCancel(a: real, size: real, origin: real)
    requires size != 0.0
    ensures (a * size + origin - origin) / size == a
  {
  }

  lemma MatrixProduct(b0: real, b1: real, f0: real, f1: real, f2: real, f3: real, q: real, r: real)
    ensures b0 * (f0 * q + f1 * r) + b1 * (f2 * q + f3 * r) == (b0 * f0 + b1 * f2) * q + (b0 * f1 + b1 * f3) * r
  {
  }

  /** Both orientation constants round-trip for every layout with a nonzero size. */
  lemma OrientationRoundTrip(sqrt3: real, size: Point, origin: Point, unit: UnitCircle, h: Hex)
    requires IsSqrt3(sqrt3)
    requires size.x != 0.0 && size.y != 0.0
    ensures PixelToHex(MkLayout(PointyTop(sqrt3), size, origin, unit), ToPixel(MkLayout(PointyTop(sqrt3), size, origin, unit), h)) == Some(h)
    ensures PixelToHex(MkLayout(FlatTop(sqrt3), size, origin, unit), ToPixel(MkLayout(FlatTop(sqrt3), size, origin, unit), h)) == Some(h)
  {
    OrientationsInvert(sqrt3);
    PixelRoundTrip(MkLayout(PointyTop(sqrt3), size, origin, unit), h);
    PixelRoundTrip(MkLayout(FlatTop(sqrt3), size, origin, unit), h);
  }

  /** `to_pixel` is affine: the offset from the origin of a component-wise
      sum is the sum of the offsets. */
  lemma ToPixelAdditive(l: Layout, a: Hex, b: Hex)
    ensures ToPixel(l, Plus(a, b)).x - l.origin.x == (ToPixel(l, a).x - l.origin.x) + (ToPixel(l, b).x - l.origin.x)
    ensures ToPixel(l, Plus(a, b)).y - l.origin.y == (ToPixel(l, a).y - l.origin.y) + (ToPixel(l, b).y - l.origin.y)
  {
    var aq, ar, bq, br := a.q as real, a.r as real, b.q as real, b.r as real;
    assert Plus(a, b).q as real == aq + bq && Plus(a, b).r as real == ar + br;
    ForwardAdditive(l.orientation, l.size, aq, ar, bq, br);
  }

  lemma ForwardAdditive(m: Orientation, size: Point, aq: real, ar: real, bq: real, br: real)
    ensures Forward(m, size, aq + bq, ar + br).x == Forward(m, size, aq, ar).x + Forward(m, size, bq, br).x
    ensures Forward(m, size, aq + bq, ar + br).y == Forward(m, size, aq, ar).y + Forward(m, size, bq, br).y
  {
    RowAdditive(m.f0, m.f1, aq, ar, bq, br, size.x);
    RowAdditive(m.f2, m.f3, aq, ar, bq, br, size.y);
  }

  lemma RowAdditive(f0: real, f1: real, aq: real, ar: real, bq: real, br: real, size: real)
    ensures (f0 * (aq + bq) + f1 * (ar + br)) * size == (f0 * aq + f1 * ar) * size + (f0 * bq + f1 * br) * size
  {
  }

  /** Panning: moving the origin by (dx, dy) moves every corner of every
      hex by (dx, dy). */
  lemma CornersFollowOrigin(m: Orientation, size: Point, origin: Point, dx: real, dy: real, unit: UnitCircle, h: Hex)
    ensures var before := Corners(MkLayout(m, size, origin, unit), h);
            var after := Corners(MkLayout(m, size, Point(origin.x + dx, origin.y + dy), unit), h);
            |before| == |after| == 6 &&
            forall i :: 0 <= i < 6 ==> after[i] == Point(before[i].x + dx, before[i].y + dy)
  {
    var l1 := MkLayout(m, size, origin, unit);
    var l2 := MkLayout(m, size, Point(origin.x + dx, origin.y + dy), unit);
    var before, after := Corners(l1, h), Corners(l2, h);
    assert ToPixel(l2, h) == Point(ToPixel(l1, h).x + dx, ToPixel(l1, h).y + dy);
    forall i | 0 <= i < 6
      ensures after[i] == Point(before[i].x + dx, before[i].y + dy)
    {
      assert l1.cornerOffsets[i] == l2.cornerOffsets[i];
    }
  }

  /** The concrete case: pointy-top, unit size, origin at (0, 0) puts
      hex (1, 0, -1) at (sqrt3, 0). */
  lemma PointyUnitStep(sqrt3: real, unit: UnitCircle)
    ensures ToPixel(MkLayout(PointyTop(sqrt3), Point(1.0, 1.0), Point(0.0, 0.0), unit), Cube(1, 0, -1)) == Point(sqrt3, 0.0)
  {
  }
}
