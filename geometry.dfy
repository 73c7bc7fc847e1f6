/**
 * Lines, planes and their intersections (`src/geometry.rs`). A plane is the set of points whose
 * dot product with `normal` equals `threshold`; its signed distance is positive on the side the
 * normal points to.
 */
module Geometry {
  import opened Wrappers
  import opened Vectors
  import Utils

  /** `Line(V, V)`: a segment from `p0` to `p1` (also used for a pair of scalars). */
  datatype Line<V> = Line(p0: V, p1: V)

  /** `Line::map`: apply `f` to both endpoints, keeping their order. */
  function Map<V, U>(l: Line<V>, f: V -> U): (r: Line<U>)
  {
    Line(f(l.p0), f(l.p1))
  }

  /** Mapping keeps each endpoint in its place, and two maps compose into one. */
  lemma MapCompose<V, U, W>(l: Line<V>, f: V -> U, g: U -> W)
    ensures Map(l, f).p0 == f(l.p0) && Map(l, f).p1 == f(l.p1)
    ensures Map(Map(l, f), g) == Map(l, x => g(f(x)))
    ensures Map(l, x => x) == l
  {
  }

  /** The point at parameter `t` of a segment. */
  function LinePoint(l: Line<Vector>, t: real): Vector
  {
    Linterp(l.p0, l.p1, t)
  }

  datatype Plane = Plane(normal: Vector, threshold: real)

  /** `Plane::point_signed_distance`. */
  function PointSignedDistance(plane: Plane, point: Vector): real
  {
    Dot(plane.normal, point) - plane.threshold
  }

  /** `Plane::from_normal_and_point`: the plane with this normal through this point. */
  function FromNormalAndPoint(normal: Vector, point: Vector): (p: Plane)
    ensures p.normal == normal
    ensures PointSignedDistance(p, point) == 0.0
  {
    Plane(normal, Dot(normal, point))
  }

  /** The signed distance of any point from that plane is its offset from `point` along the normal. */
  lemma FromNormalAndPointDistance(normal: Vector, point: Vector, q: Vector)
    requires |normal| == |point| == |q|
    ensures PointSignedDistance(FromNormalAndPoint(normal, point), q) == Dot(normal, Sub(q, point))
  {
    DotSub(q, point, normal);
    DotSymmetric(Sub(q, point), normal);
    DotSymmetric(q, normal);
    DotSymmetric(point, normal);
  }

  /** The signed distance along a segment interpolates the endpoint distances. */
  lemma SignedDistanceLinterp(plane: Plane, l: Line<Vector>, t: real)
    requires |l.p0| == |l.p1| == |plane.normal|
    ensures PointSignedDistance(plane, LinePoint(l, t))
      == ScalarLinterp(PointSignedDistance(plane, l.p0), PointSignedDistance(plane, l.p1), t)
  {
    DotLinterp(l.p0, l.p1, plane.normal, t);
    DotSymmetric(plane.normal, LinePoint(l, t));
    DotSymmetric(plane.normal, l.p0);
    DotSymmetric(plane.normal, l.p1);
  }

  /**
   * `Plane::point_normal_distance`: the fold over `planes` that keeps the plane with the
   * largest signed distance of `point` together with that distance; a later plane replaces the
   * kept one only when strictly farther.
   */
  function PointNormalDistance(point: Vector, planes: seq<Plane>): (r: Option<(Plane, real)>)
  {
    if |planes| == 0 then None
    else
      var plane := planes[|planes| - 1];
      var thisDist := PointSignedDistance(plane, point);
      match PointNormalDistance(point, planes[..|planes| - 1])
      case None => Some((plane, thisDist))
      case Some((best, curDist)) =>
        if thisDist > curDist then Some((plane, thisDist)) else Some((best, curDist))
  }

  /** The fold is `partial_max` keyed by signed distance, paired with the distance it found. */
  lemma {:induction false} PointNormalDistanceIsPartialMax(point: Vector, planes: seq<Plane>)
    ensures var key := (p: Plane) => PointSignedDistance(p, point);
      PointNormalDistance(point, planes) ==
        match Utils.PartialMaxBy(planes, key)
        case None => None
        case Some(p) => Some((p, key(p)))
  {
    if |planes| > 1 {
      PointNormalDistanceIsPartialMax(point, planes[..|planes| - 1]);
    }
  }

  /**
   * The result of `point_normal_distance`: None exactly for no planes; otherwise the first
   * plane from which `point` has the largest signed distance, paired with that distance.
   */
  lemma PointNormalDistanceClosest(point: Vector, planes: seq<Plane>)
    ensures PointNormalDistance(point, planes).None? <==> |planes| == 0
    ensures |planes| > 0 ==> exists k ::
      Utils.FirstMaximumAt(planes, (p: Plane) => PointSignedDistance(p, point), k)
      && PointNormalDistance(point, planes) == Some((planes[k], PointSignedDistance(planes[k], point)))
  {
    PointNormalDistanceIsPartialMax(point, planes);
    if |planes| > 0 {
      Utils.PartialMaxByIsFirstMaximum(planes, (p: Plane) => PointSignedDistance(p, point));
    }
  }

  /**
   * `line_plane_intersect`. A segment whose endpoints both project to nearly zero on the normal
   * gives None; so does one parallel to the plane (the source divides by zero there and the
   * resulting non-finite parameter fails the range test); otherwise the crossing parameter must
   * lie in [0, 1].
   */
  function LinePlaneIntersect(line: Line<Vector>, plane: Plane): (r: Option<Vector>)
  {
    var p0n := Dot(line.p0, plane.normal);
    var p1n := Dot(line.p1, plane.normal);
    if IsClose(p0n, 0.0) && IsClose(p1n, 0.0) then None
    else if p0n == p1n then None
    else
      var t := (p0n - plane.threshold) / (p0n - p1n);
      if !(0.0 <= t <= 1.0) then None
      else Some(LinePoint(line, t))
  }

  /** A point `line_plane_intersect` returns lies on the segment and on the plane. */
  lemma LinePlaneIntersectOnPlane(line: Line<Vector>, plane: Plane)
    requires |line.p0| == |line.p1| == |plane.normal|
    requires LinePlaneIntersect(line, plane).Some?
    ensures exists t :: 0.0 <= t <= 1.0 && LinePlaneIntersect(line, plane).value == LinePoint(line, t)
    ensures PointSignedDistance(plane, LinePlaneIntersect(line, plane).value) == 0.0
  {
    var p0n := Dot(line.p0, plane.normal);
    var p1n := Dot(line.p1, plane.normal);
    var t := (p0n - plane.threshold) / (p0n - p1n);
    DotLinterp(line.p0, line.p1, plane.normal, t);
    ScalarLinterpHits(p0n, p1n, plane.threshold);
    DotSymmetric(plane.normal, LinePoint(line, t));
  }

  /**
   * Conversely, a segment whose endpoints lie on opposite sides of the plane (or touch it) is
   * found, unless it is parallel to the plane or both endpoints project to nearly zero.
   */
  lemma LinePlaneIntersectFindsCrossing(line: Line<Vector>, plane: Plane)
    requires PointSignedDistance(plane, line.p0) * PointSignedDistance(plane, line.p1) <= 0.0
    requires Dot(line.p0, plane.normal) != Dot(line.p1, plane.normal)
    requires !(IsClose(Dot(line.p0, plane.normal), 0.0) && IsClose(Dot(line.p1, plane.normal), 0.0))
    ensures LinePlaneIntersect(line, plane).Some?
  {
    DotSymmetric(plane.normal, line.p0);
    DotSymmetric(plane.normal, line.p1);
    var p0n := Dot(line.p0, plane.normal);
    var p1n := Dot(line.p1, plane.normal);
    CrossingParameterInRange(p0n - plane.threshold, p1n - plane.threshold);
  }

  /**
   * Whether `p` is on the safe side of the boundary `bd`: strictly beyond its threshold, or,
   * when `inclusive`, at or beyond it. The two clipping implementations differ only in this.
   */
  predicate Beyond(p: Vector, bd: Plane, inclusive: bool)
  {
    if inclusive then Dot(p, bd.normal) >= bd.threshold else Dot(p, bd.normal) > bd.threshold
  }

  /**
   * `t_intersect`: the parameter at which the segment's projection on the normal reaches the
   * threshold; it lies in [0, 1] when the endpoints' margins have opposite signs.
   */
  function TIntersect(line: Line<Vector>, bd: Plane): (t: real)
    requires Dot(line.p0, bd.normal) != Dot(line.p1, bd.normal)
    ensures ScalarLinterp(Dot(line.p0, bd.normal), Dot(line.p1, bd.normal), t) == bd.threshold
    ensures var m0, m1 := Dot(line.p0, bd.normal) - bd.threshold, Dot(line.p1, bd.normal) - bd.threshold;
      (m0 >= 0.0 >= m1 || m0 <= 0.0 <= m1) ==> 0.0 <= t <= 1.0
  {
    var p0n := Dot(line.p0, bd.normal);
    var p1n := Dot(line.p1, bd.normal);
    var m0, m1 := p0n - bd.threshold, p1n - bd.threshold;
    ScalarLinterpHits(p0n, p1n, bd.threshold);
    assert m0 / (m0 - m1) == m0 / (p0n - p1n);
    if m0 >= 0.0 >= m1 || m0 <= 0.0 <= m1 then
      OppositeSignsProduct(m0, m1);
      CrossingParameterInRange(m0, m1);
      m0 / (p0n - p1n)
    else
      m0 / (p0n - p1n)
  }

  /** For margins `a`, `b` of opposite sign (or zero) and `a != b`, `a / (a - b)` is in [0, 1]. */
  lemma CrossingParameterInRange(a: real, b: real)
    requires a * b <= 0.0 && a != b
    ensures 0.0 <= a / (a - b) <= 1.0
  {
    ProductSign(a, b);
    if a - b > 0.0 {
      assert 0.0 <= a <= a - b;
    } else {
      assert a - b <= a <= 0.0;
    }
  }

  lemma OppositeSignsProduct(a: real, b: real)
    requires a >= 0.0 >= b || a <= 0.0 <= b
    ensures a * b <= 0.0
  {
    if a >= 0.0 {
      assert a * b <= a * 0.0;
    } else {
      assert a * b <= 0.0 * b;
    }
  }

  lemma ProductSign(a: real, b: real)
    ensures a > 0.0 && b > 0.0 ==> a * b > 0.0
    ensures a < 0.0 && b < 0.0 ==> a * b > 0.0
  {
  }

  /** `is_point_in_sphere`: strictly inside the sphere of radius `r` about the origin. */
  predicate IsPointInSphere(r: real, p: Vector)
  {
    Dot(p, p) < r * r
  }

  /** The point `v0 + dv*t` of the infinite line through `v0` with direction `dv`. */
  function Along(v0: Vector, dv: Vector, t: real): Vector
  {
    Add(v0, Scale(dv, t))
  }

  /**
   * `sphere_t_intersect_infinite_normed`: the parameters (in units of the segment, 0 at `p0`
   * and 1 at `p1`) at which the infinite line meets the sphere of radius `r` about the origin.
   * A degenerate segment gives (0, 1) when its point is inside the sphere and None otherwise; a
   * line that misses the sphere gives None.
   */
  function SphereTIntersectInfiniteNormed(line: Line<Vector>, r: real, sqrt: real -> real)
    : (roots: Option<Line<real>>)
    requires IsSqrt(sqrt)
  {
    var v0 := line.p0;
    var dv := Sub(line.p1, line.p0);
    var dvNorm := Norm(dv, sqrt);
    if IsClose(dvNorm, 0.0) then
      if IsPointInSphere(r, v0) then Some(Line(0.0, 1.0)) else None
    else
      var unit := Div(dv, dvNorm);
      var v0rDv := Dot(v0, unit);
      var discr := SphereDiscriminant(v0, unit, r);
      if discr < 0.0 then None
      else
        var sqrtDiscr := sqrt(discr);
        Some(Line((-v0rDv - sqrtDiscr) / dvNorm, (-v0rDv + sqrtDiscr) / dvNorm))
  }

  /** The discriminant of the sphere equation along the unit direction `unit`. */
  function SphereDiscriminant(v0: Vector, unit: Vector, r: real): real
  {
    var v0rDv := Dot(v0, unit);
    v0rDv * v0rDv - Dot(v0, v0) + r * r
  }

  /** Degenerate segment: (0, 1) if its point is inside the sphere, None if not. */
  lemma SphereRootsDegenerate(line: Line<Vector>, r: real, sqrt: real -> real)
    requires IsSqrt(sqrt)
    requires IsClose(Norm(Sub(line.p1, line.p0), sqrt), 0.0)
    ensures SphereTIntersectInfiniteNormed(line, r, sqrt)
      == if IsPointInSphere(r, line.p0) then Some(Line(0.0, 1.0)) else None
  {
  }

  /**
   * A proper segment: None exactly when the discriminant is negative; otherwise the roots are
   * ordered and each places `v0 + dv*t` on the sphere.
   */
  lemma SphereRootsOnSphere(line: Line<Vector>, r: real, sqrt: real -> real)
    requires IsSqrt(sqrt)
    requires |line.p0| == |line.p1|
    requires !IsClose(Norm(Sub(line.p1, line.p0), sqrt), 0.0)
    requires SphereTIntersectInfiniteNormed(line, r, sqrt).Some?
    ensures var roots := SphereTIntersectInfiniteNormed(line, r, sqrt).value;
      var dv := Sub(line.p1, line.p0);
      roots.p0 <= roots.p1
      && Dot(Along(line.p0, dv, roots.p0), Along(line.p0, dv, roots.p0)) == r * r
      && Dot(Along(line.p0, dv, roots.p1), Along(line.p0, dv, roots.p1)) == r * r
  {
    var v0 := line.p0;
    var dv := Sub(line.p1, line.p0);
    var d := Norm(dv, sqrt);
    var w := Dot(v0, Div(dv, d));
    var s := sqrt(SphereDiscriminant(v0, Div(dv, d), r));
    SphereRootsShape(line, r, sqrt);
    assert s >= 0.0 && s * s == w * w - Dot(v0, v0) + r * r;
    var roots := SphereTIntersectInfiniteNormed(line, r, sqrt).value;
    assert roots == Line((-w - s) / d, (-w + s) / d);
    DotSymmetric(v0, Div(dv, d));
    DotDiv(dv, d, v0);
    DotSymmetric(dv, v0);
    assert w == Dot(v0, dv) / d;
    assert d * d == Dot(dv, dv);
    AlongOnSphere(v0, dv, d, w, s, r, -1.0, roots.p0);
    AlongOnSphere(v0, dv, d, w, s, r, 1.0, roots.p1);
    RootsOrdered(w, s, d);
  }

  /** A root `t` of the sphere equation puts `v0 + dv*t` on the sphere. */
  lemma AlongOnSphere(v0: Vector, dv: Vector, d: real, w: real, s: real, r: real, sign: real, t: real)
    requires |v0| == |dv|
    requires d != 0.0 && d * d == Dot(dv, dv) && w == Dot(v0, dv) / d
    requires s * s == w * w - Dot(v0, v0) + r * r
    requires sign == 1.0 || sign == -1.0
    requires t == (-w + sign * s) / d
    ensures Dot(Along(v0, dv, t), Along(v0, dv, t)) == r * r
  {
    var p := Add(v0, Scale(dv, t));
    DotOffsetSelf(v0, dv, t);
    RootOnSphere(Dot(v0, v0), Dot(v0, dv), Dot(dv, dv), d, w, s, r, sign, t);
    assert Along(v0, dv, t) == p;
  }

  /** Unfolding of the proper-segment branch that returned roots. */
  lemma SphereRootsShape(line: Line<Vector>, r: real, sqrt: real -> real)
    requires IsSqrt(sqrt)
    requires !IsClose(Norm(Sub(line.p1, line.p0), sqrt), 0.0)
    requires SphereTIntersectInfiniteNormed(line, r, sqrt).Some?
    ensures var d := Norm(Sub(line.p1, line.p0), sqrt);
      var unit := Div(Sub(line.p1, line.p0), d);
      var w := Dot(line.p0, unit);
      var s := sqrt(SphereDiscriminant(line.p0, unit, r));
      d > 0.0 && SphereDiscriminant(line.p0, unit, r) >= 0.0
      && SphereTIntersectInfiniteNormed(line, r, sqrt).value == Line((-w - s) / d, (-w + s) / d)
  {
  }

  lemma RootsOrdered(w: real, s: real, d: real)
    requires s >= 0.0 && d > 0.0
    ensures (-w - s) / d <= (-w + s) / d
  {
    DivMonotone(-w - s, -w + s, d);
  }

  lemma DivMonotone(x: real, y: real, d: real)
    requires x <= y && d > 0.0
    ensures x / d <= y / d
  {
  }

  /**
   * The root algebra: with `d*d == dd`, `w == vd / d` and `s*s == w*w - vv + r*r`, the
   * parameter `t = (-w + sign*s) / d` solves `vv + 2 t vd + t^2 dd == r*r`.
   */
  lemma RootOnSphere(vv: real, vd: real, dd: real, d: real, w: real, s: real, r: real, sign: real, t: real)
    requires d != 0.0 && d * d == dd && w == vd / d
    requires s * s == w * w - vv + r * r
    requires sign == 1.0 || sign == -1.0
    requires t == (-w + sign * s) / d
    ensures Quadratic(vv, vd, dd, t) == r * r
  {
    var u := -w + sign * s;
    assert t * d == u;
    assert vd == w * d;
    calc {
      vv + 2.0 * t * vd + t * t * dd;
      { assert t * vd == (t * d) * w; assert t * t * dd == (t * d) * (t * d); }
      vv + 2.0 * u * w + u * u;
      { assert sign * sign == 1.0; }
      vv - w * w + s * s;
      r * r;
    }
  }

  /**
   * `sphere_line_intersect`: the two points where the infinite line meets the sphere, unless
   * both lie before `p0` or both lie beyond `p1`.
   */
  function SphereLineIntersect(line: Line<Vector>, r: real, sqrt: real -> real): (res: Option<Line<Vector>>)
    requires IsSqrt(sqrt)
  {
    var v0 := line.p0;
    var dv := Sub(line.p1, line.p0);
    match SphereTIntersectInfiniteNormed(line, r, sqrt)
    case None => None
    case Some(Line(tm, tp)) =>
      if (tm < 0.0 && tp < 0.0) || (tm > 1.0 && tp > 1.0) then None
      else Some(Line(Along(v0, dv, tm), Along(v0, dv, tp)))
  }

  /**
   * `sphere_line_intersect` keeps exactly the root pairs that are not both below 0 and not both
   * above 1, and returns the points at those roots; for a proper segment they lie on the sphere.
   */
  lemma SphereLineIntersectFilters(line: Line<Vector>, r: real, sqrt: real -> real)
    requires IsSqrt(sqrt)
    requires |line.p0| == |line.p1|
    ensures var roots := SphereTIntersectInfiniteNormed(line, r, sqrt);
      var res := SphereLineIntersect(line, r, sqrt);
      res.Some? <==> (roots.Some?
        && !(roots.value.p0 < 0.0 && roots.value.p1 < 0.0)
        && !(roots.value.p0 > 1.0 && roots.value.p1 > 1.0))
    ensures var res := SphereLineIntersect(line, r, sqrt);
      res.Some? && !IsClose(Norm(Sub(line.p1, line.p0), sqrt), 0.0) ==>
        Dot(res.value.p0, res.value.p0) == r * r && Dot(res.value.p1, res.value.p1) == r * r
  {
    var res := SphereLineIntersect(line, r, sqrt);
    if res.Some? && !IsClose(Norm(Sub(line.p1, line.p0), sqrt), 0.0) {
      SphereRootsOnSphere(line, r, sqrt);
    }
  }
}
