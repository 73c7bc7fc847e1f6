/**
 * Half-space line clipping of `src/draw/clipping.rs`: the near-plane clip, the cube clip, and the
 * clip of a segment against the boundary planes of the shapes in front of it.
 *
 * A boundary set of an occluding shape is a list of planes; a point is hidden by the shape when it
 * lies on the inner side (`dot(p, normal) <= threshold`) of every plane of the set, and a point
 * strictly beyond one plane is safe. Points of a segment are addressed by the interpolation
 * parameter `s` of `Linterp(p0, p1, s)`, 0 at `p0` and 1 at `p1`.
 */
module Clipping {
  import opened Wrappers
  import opened Vectors
  import opened Geometry

  /** A point of the segment, between its endpoints. */
  ghost predicate OnSegment(line: Line<Vector>, q: Vector)
  {
    exists t :: 0.0 <= t <= 1.0 && q == LinePoint(line, t)
  }

  lemma EndpointsOnSegment(line: Line<Vector>)
    requires |line.p0| == |line.p1|
    ensures OnSegment(line, line.p0) && OnSegment(line, line.p1)
  {
    LinterpEnds(line.p0, line.p1);
    assert line.p0 == LinePoint(line, 0.0);
    assert line.p1 == LinePoint(line, 1.0);
  }

  // ---------------------------------------------------------------------------------------------
  // Interpolated margins: where `x0*(1-s) + x1*s` lies relative to a threshold.

  /** Between two values at or above `th`, the interpolation stays at or above `th`. */
  lemma InterpAbove(x0: real, x1: real, th: real, s: real)
    requires x0 >= th && x1 >= th && 0.0 <= s <= 1.0
    ensures ScalarLinterp(x0, x1, s) >= th
  {
    assert ScalarLinterp(x0, x1, s) - th == (x0 - th) * (1.0 - s) + (x1 - th) * s;
    MulNonnegative(x0 - th, 1.0 - s);
    MulNonnegative(x1 - th, s);
  }

  lemma MulNonnegative(p: real, q: real)
    requires p >= 0.0 && q >= 0.0
    ensures p * q >= 0.0
  {
  }

  /** Between two values at or below `th`, the interpolation stays at or below `th`. */
  lemma InterpBelow(x0: real, x1: real, th: real, s: real)
    requires x0 <= th && x1 <= th && 0.0 <= s <= 1.0
    ensures ScalarLinterp(x0, x1, s) <= th
  {
    assert th - ScalarLinterp(x0, x1, s) == (th - x0) * (1.0 - s) + (th - x1) * s;
    MulNonnegative(th - x0, 1.0 - s);
    MulNonnegative(th - x1, s);
  }

  /** The margin at `s` is the slope times the distance from `s` to the crossing parameter. */
  lemma CrossingOffset(x0: real, x1: real, th: real, s: real)
    requires x0 != x1
    ensures ScalarLinterp(x0, x1, s) - th == (x0 - x1) * ((x0 - th) / (x0 - x1) - s)
  {
    var t := (x0 - th) / (x0 - x1);
    assert (x0 - x1) * t == x0 - th;
  }

  /** A decreasing margin is at or above `th` before its crossing and at or below after it. */
  lemma DecreasingMargin(x0: real, x1: real, th: real, s: real)
    requires x0 > x1
    ensures s <= (x0 - th) / (x0 - x1) ==> ScalarLinterp(x0, x1, s) >= th
    ensures s >= (x0 - th) / (x0 - x1) ==> ScalarLinterp(x0, x1, s) <= th
  {
    CrossingOffset(x0, x1, th, s);
    var t := (x0 - th) / (x0 - x1);
    SignOfProduct(x0 - x1, t - s);
  }

  /** An increasing margin is at or below `th` before its crossing and at or above after it. */
  lemma IncreasingMargin(x0: real, x1: real, th: real, s: real)
    requires x0 < x1
    ensures s <= (x0 - th) / (x0 - x1) ==> ScalarLinterp(x0, x1, s) <= th
    ensures s >= (x0 - th) / (x0 - x1) ==> ScalarLinterp(x0, x1, s) >= th
  {
    CrossingOffset(x0, x1, th, s);
    var t := (x0 - th) / (x0 - x1);
    SignOfProduct(x0 - x1, t - s);
  }

  lemma SignOfProduct(p: real, q: real)
    ensures p > 0.0 && q >= 0.0 ==> p * q >= 0.0
    ensures p > 0.0 && q <= 0.0 ==> p * q <= 0.0
    ensures p < 0.0 && q >= 0.0 ==> p * q <= 0.0
    ensures p < 0.0 && q <= 0.0 ==> p * q >= 0.0
  {
  }

  /** A half-space containing both endpoints contains every point of the segment. */
  lemma HalfSpaceConvex(line: Line<Vector>, n: Vector, th: real, q: Vector)
    requires |line.p0| == |line.p1| == |n|
    requires Dot(line.p0, n) >= th && Dot(line.p1, n) >= th
    requires OnSegment(line, q)
    ensures Dot(q, n) >= th
  {
    var t :| 0.0 <= t <= 1.0 && q == LinePoint(line, t);
    DotLinterp(line.p0, line.p1, n, t);
    InterpAbove(Dot(line.p0, n), Dot(line.p1, n), th, t);
  }

  // ---------------------------------------------------------------------------------------------
  // clip_line_plane

  /**
   * `clip_line_plane`: keep the part of the segment on the side of `plane` shifted by `small_z`
   * that the normal points to. An endpoint is safe when `dot(p, normal) >= threshold + small_z`.
   */
  function ClipLinePlane(line: Line<Vector>, plane: Plane, smallZ: real): Option<Line<Vector>>
  {
    var th := plane.threshold + smallZ;
    var p0n := Dot(line.p0, plane.normal);
    var p1n := Dot(line.p1, plane.normal);
    var p0Safe := p0n >= th;
    var p1Safe := p1n >= th;
    if !p0Safe && !p1Safe then None
    else if p0Safe && p1Safe then Some(line)
    else
      var intersect := CrossingPoint(line, plane.normal, th);
      if !p0Safe && p1Safe then Some(Line(intersect, line.p1)) else Some(Line(line.p0, intersect))
  }

  /** `intersect`: the point at `t_intersect`, where the margin `dot(_, n) - th` changes sign. */
  function CrossingPoint(line: Line<Vector>, n: Vector, th: real): Vector
    requires Dot(line.p0, n) != Dot(line.p1, n)
  {
    var p0n := Dot(line.p0, n);
    var p1n := Dot(line.p1, n);
    LinePoint(line, (p0n - th) / (p0n - p1n))
  }

  /**
   * The three cases of `clip_line_plane`: None when both endpoints are behind the shifted
   * plane, the line itself when both are at or beyond it, and otherwise the safe endpoint kept
   * with the other replaced by the crossing point, which lies on the shifted plane.
   */
  lemma ClipLinePlaneCases(line: Line<Vector>, plane: Plane, smallZ: real)
    requires |line.p0| == |line.p1| == |plane.normal|
    ensures var th := plane.threshold + smallZ;
      var p0n := Dot(line.p0, plane.normal);
      var p1n := Dot(line.p1, plane.normal);
      var r := ClipLinePlane(line, plane, smallZ);
      && (r.None? <==> p0n < th && p1n < th)
      && (p0n >= th && p1n >= th ==> r == Some(line))
      && (p0n < th <= p1n ==> r.Some? && r.value.p1 == line.p1 && Dot(r.value.p0, plane.normal) == th)
      && (p1n < th <= p0n ==> r.Some? && r.value.p0 == line.p0 && Dot(r.value.p1, plane.normal) == th)
  {
    var th := plane.threshold + smallZ;
    if (Dot(line.p0, plane.normal) < th) != (Dot(line.p1, plane.normal) < th) {
      CrossingPointOnSegment(line, plane.normal, th);
    }
  }

  /**
   * Whatever `clip_line_plane` returns is a sub-segment of its input lying wholly on the safe
   * side of the shifted plane.
   */
  lemma ClipLinePlaneKeepsSafeSide(line: Line<Vector>, plane: Plane, smallZ: real)
    requires |line.p0| == |line.p1| == |plane.normal|
    requires ClipLinePlane(line, plane, smallZ).Some?
    ensures var r := ClipLinePlane(line, plane, smallZ).value;
      && Dot(r.p0, plane.normal) >= plane.threshold + smallZ
      && Dot(r.p1, plane.normal) >= plane.threshold + smallZ
      && OnSegment(line, r.p0) && OnSegment(line, r.p1)
      && |r.p0| == |r.p1| == |line.p0|
  {
    EndpointsOnSegment(line);
    var th := plane.threshold + smallZ;
    var p0n := Dot(line.p0, plane.normal);
    var p1n := Dot(line.p1, plane.normal);
    var r := ClipLinePlane(line, plane, smallZ).value;
    if p0n >= th && p1n >= th {
      assert r == line;
    } else {
      var q := CrossingPoint(line, plane.normal, th);
      CrossingPointOnSegment(line, plane.normal, th);
      if p0n < th {
        assert r == Line(q, line.p1);
      } else {
        assert r == Line(line.p0, q);
      }
    }
  }

  /** The crossing point of a segment whose endpoints straddle `dot(_, n) == th` lies on both. */
  lemma CrossingPointOnSegment(line: Line<Vector>, n: Vector, th: real)
    requires |line.p0| == |line.p1| == |n|
    requires (Dot(line.p0, n) < th) != (Dot(line.p1, n) < th)
    ensures var q := CrossingPoint(line, n, th);
      OnSegment(line, q) && |q| == |line.p0| && Dot(q, n) == th
  {
    var p0n := Dot(line.p0, n);
    var p1n := Dot(line.p1, n);
    var t := (p0n - th) / (p0n - p1n);
    CrossingParameterInRange(p0n - th, p1n - th);
    assert (p0n - th) / ((p0n - th) - (p1n - th)) == t;
    DotLinterp(line.p0, line.p1, n, t);
    ScalarLinterpHits(p0n, p1n, th);
  }

  // ---------------------------------------------------------------------------------------------
  // clip_line_cube

  /**
   * The planes of `clip_line_cube`, axis by axis: normal `-e_i` then `+e_i`, both with
   * threshold `-r`, so that together they keep `-r <= x_i <= r`.
   */
  function CubePlanes(dim: nat, r: real): (planes: seq<Plane>)
    ensures |planes| == 2 * dim
    ensures forall k :: 0 <= k < 2 * dim ==> |planes[k].normal| == dim && planes[k].threshold == -r
  {
    seq(2 * dim, k requires 0 <= k < 2 * dim =>
      Plane(Scale(OneHot(dim, k / 2), if k % 2 == 0 then -1.0 else 1.0), -r))
  }

  /** Successive `and_then(clip_line_plane(_, plane, 0))` over `planes`, in order. */
  function ClipPlanes(line: Line<Vector>, planes: seq<Plane>): Option<Line<Vector>>
  {
    if |planes| == 0 then Some(line)
    else
      match ClipPlanes(line, planes[..|planes| - 1])
      case None => None
      case Some(l) => ClipLinePlane(l, planes[|planes| - 1], 0.0)
  }

  /** `clip_line_cube`: clip on the `2 * DIM` cube planes in turn. */
  method ClipLineCube(line: Line<Vector>, r: real, dim: nat) returns (clipped: Option<Line<Vector>>)
    ensures clipped == ClipPlanes(line, CubePlanes(dim, r))
  {
    var planes := CubePlanes(dim, r);
    clipped := Some(line);
    for k := 0 to |planes|
      invariant clipped == ClipPlanes(line, planes[..k])
    {
      ClipPlanesStep(line, planes, k);
      if clipped.Some? {
        clipped := ClipLinePlane(clipped.value, planes[k], 0.0);
      }
    }
    assert planes[..|planes|] == planes;
  }

  /** One more plane of `ClipPlanes`: clip what the earlier planes left, if anything. */
  lemma ClipPlanesStep(line: Line<Vector>, planes: seq<Plane>, k: nat)
    requires k < |planes|
    ensures ClipPlanes(line, planes[..k + 1]) ==
      if ClipPlanes(line, planes[..k]).Some? then ClipLinePlane(ClipPlanes(line, planes[..k]).value, planes[k], 0.0)
      else None
  {
    assert planes[..k + 1][..k] == planes[..k];
  }

  /** The line that survives clipping by several planes lies on the safe side of every one of them. */
  lemma {:induction false} ClipPlanesInside(line: Line<Vector>, planes: seq<Plane>)
    requires |line.p0| == |line.p1|
    requires forall k :: 0 <= k < |planes| ==> |planes[k].normal| == |line.p0|
    requires ClipPlanes(line, planes).Some?
    ensures var l := ClipPlanes(line, planes).value;
      |l.p0| == |l.p1| == |line.p0|
      && forall k :: 0 <= k < |planes| ==>
        Dot(l.p0, planes[k].normal) >= planes[k].threshold
        && Dot(l.p1, planes[k].normal) >= planes[k].threshold
  {
    if |planes| > 0 {
      var init := planes[..|planes| - 1];
      var last := planes[|planes| - 1];
      ClipPlanesInside(line, init);
      var prev := ClipPlanes(line, init).value;
      var l := ClipPlanes(line, planes).value;
      ClipLinePlaneKeepsSafeSide(prev, last, 0.0);
      forall k | 0 <= k < |planes|
        ensures Dot(l.p0, planes[k].normal) >= planes[k].threshold
        ensures Dot(l.p1, planes[k].normal) >= planes[k].threshold
      {
        if k < |planes| - 1 {
          assert planes[k] == init[k];
          HalfSpaceConvex(prev, planes[k].normal, planes[k].threshold, l.p0);
          HalfSpaceConvex(prev, planes[k].normal, planes[k].threshold, l.p1);
        }
      }
    }
  }

  /** Clipping a line that is already on the safe side of every plane returns it unchanged. */
  lemma {:induction false} ClipPlanesKeepsInside(line: Line<Vector>, planes: seq<Plane>)
    requires forall k :: 0 <= k < |planes| ==>
      Dot(line.p0, planes[k].normal) >= planes[k].threshold
      && Dot(line.p1, planes[k].normal) >= planes[k].threshold
    ensures ClipPlanes(line, planes) == Some(line)
  {
    if |planes| > 0 {
      ClipPlanesKeepsInside(line, planes[..|planes| - 1]);
    }
  }

  lemma CubePlaneAt(dim: nat, r: real, i: nat)
    requires i < dim
    ensures CubePlanes(dim, r)[2 * i].normal == Scale(OneHot(dim, i), -1.0)
    ensures CubePlanes(dim, r)[2 * i + 1].normal == Scale(OneHot(dim, i), 1.0)
  {
    assert (2 * i) / 2 == i && (2 * i) % 2 == 0;
    assert (2 * i + 1) / 2 == i && (2 * i + 1) % 2 == 1;
  }

  /** The signed coordinate `dot(v, s * e_i)` is `s * v[i]`. */
  lemma DotSignedAxis(v: Vector, dim: nat, i: nat, s: real)
    requires |v| == dim && i < dim
    ensures Dot(v, Scale(OneHot(dim, i), s)) == s * v[i]
  {
    DotSymmetric(v, Scale(OneHot(dim, i), s));
    DotScale(OneHot(dim, i), s, v);
    DotSymmetric(OneHot(dim, i), v);
    DotOneHot(v, dim, i);
  }

  /**
   * What `clip_line_cube` returns lies inside the cube `[-r, r]^DIM`, and clipping it again
   * returns it unchanged.
   */
  lemma ClipLineCubeInside(line: Line<Vector>, r: real, dim: nat)
    requires |line.p0| == |line.p1| == dim
    requires ClipPlanes(line, CubePlanes(dim, r)).Some?
    ensures var l := ClipPlanes(line, CubePlanes(dim, r)).value;
      && |l.p0| == |l.p1| == dim
      && (forall i :: 0 <= i < dim ==> -r <= l.p0[i] <= r && -r <= l.p1[i] <= r)
      && ClipPlanes(l, CubePlanes(dim, r)) == Some(l)
  {
    var planes := CubePlanes(dim, r);
    ClipPlanesInside(line, planes);
    var l := ClipPlanes(line, planes).value;
    forall i | 0 <= i < dim
      ensures -r <= l.p0[i] <= r && -r <= l.p1[i] <= r
    {
      assert 2 * i + 1 < |planes|;
      CubeAxisInside(l.p0, r, dim, i);
      CubeAxisInside(l.p1, r, dim, i);
    }
    ClipPlanesKeepsInside(l, planes);
  }

  /** A point on the safe side of both planes of axis `i` has its coordinate `i` in `[-r, r]`. */
  lemma CubeAxisInside(v: Vector, r: real, dim: nat, i: nat)
    requires |v| == dim && i < dim
    requires Dot(v, CubePlanes(dim, r)[2 * i].normal) >= CubePlanes(dim, r)[2 * i].threshold
    requires Dot(v, CubePlanes(dim, r)[2 * i + 1].normal) >= CubePlanes(dim, r)[2 * i + 1].threshold
    ensures -r <= v[i] <= r
  {
    CubePlaneAt(dim, r, i);
    DotSignedAxis(v, dim, i, -1.0);
    DotSignedAxis(v, dim, i, 1.0);
  }

  // ---------------------------------------------------------------------------------------------
  // clip_line_sphere

  /**
   * `clip_line_sphere`: the part of the segment inside the sphere of radius `r` about the
   * origin. A segment with both endpoints strictly inside is kept whole; otherwise each endpoint
   * outside the sphere is replaced by the matching point of `sphere_line_intersect`, and no
   * intersection drops the segment.
   */
  function ClipLineSphere(line: Line<Vector>, r: real, sqrt: real -> real): (res: Option<Line<Vector>>)
    requires IsSqrt(sqrt)
    ensures IsPointInSphere(r, line.p0) && IsPointInSphere(r, line.p1) ==> res == Some(line)
    ensures !(IsPointInSphere(r, line.p0) && IsPointInSphere(r, line.p1)) ==>
      (res.Some? <==> SphereLineIntersect(line, r, sqrt).Some?)
    ensures res.Some? && IsPointInSphere(r, line.p0) ==> res.value.p0 == line.p0
    ensures res.Some? && IsPointInSphere(r, line.p1) ==> res.value.p1 == line.p1
  {
    var v0In, v1In := IsPointInSphere(r, line.p0), IsPointInSphere(r, line.p1);
    if v0In && v1In then Some(line)
    else
      match SphereLineIntersect(line, r, sqrt)
      case None => None
      case Some(iline) =>
        if !v0In && !v1In then Some(iline)
        else if !v0In then Some(Line(iline.p0, line.p1))
        else Some(Line(line.p0, iline.p1))
  }

  /**
   * For a segment of non-negligible length, what `clip_line_sphere` keeps lies within the
   * closed sphere: each end is an original endpoint strictly inside, or a point on the sphere.
   */
  lemma ClipLineSphereWithin(line: Line<Vector>, r: real, sqrt: real -> real)
    requires IsSqrt(sqrt) && |line.p0| == |line.p1|
    requires !IsClose(Norm(Sub(line.p1, line.p0), sqrt), 0.0)
    ensures var res := ClipLineSphere(line, r, sqrt);
      res.Some? ==> Dot(res.value.p0, res.value.p0) <= r * r && Dot(res.value.p1, res.value.p1) <= r * r
  {
    SphereLineIntersectFilters(line, r, sqrt);
  }

  // ---------------------------------------------------------------------------------------------
  // ReturnLines

  /** `ReturnLines`: the zero, one or two pieces `clip_line_convex` returns. */
  datatype ReturnLines =
    | TwoLines(first: Line<Vector>, second: Line<Vector>)
    | OneLine(line: Line<Vector>)
    | NoLines

  function Count(rl: ReturnLines): nat
  {
    match rl
    case TwoLines(_, _) => 2
    case OneLine(_) => 1
    case NoLines => 0
  }

  /**
   * `Iterator::next` for `ReturnLines`: the state left behind and the item produced. Two lines
   * yield the first and leave the second; one line yields it and leaves nothing.
   */
  function Next(rl: ReturnLines): (res: (ReturnLines, Option<Line<Vector>>))
    ensures res.1.None? <==> rl == NoLines
    ensures res.1.Some? ==> Count(res.0) == Count(rl) - 1
    ensures res.1.None? ==> res.0 == NoLines
  {
    match rl
    case NoLines => (NoLines, None)
    case OneLine(line) => (NoLines, Some(line))
    case TwoLines(line1, line2) => (OneLine(line2), Some(line1))
  }

  /** Every item the iterator produces before it first returns None. */
  function Lines(rl: ReturnLines): seq<Line<Vector>>
    decreases Count(rl)
  {
    match Next(rl)
    case (_, None) => []
    case (rest, Some(l)) => [l] + Lines(rest)
  }

  /** The iterator yields the stored pieces in order, as many as it holds. */
  lemma LinesInOrder(rl: ReturnLines)
    ensures |Lines(rl)| == Count(rl)
    ensures rl.TwoLines? ==> Lines(rl) == [rl.first, rl.second]
    ensures rl.OneLine? ==> Lines(rl) == [rl.line]
  {
    if rl.TwoLines? {
      assert Lines(OneLine(rl.second)) == [rl.second];
    }
  }

  // ---------------------------------------------------------------------------------------------
  // clip_line_convex

  /** `p0` is strictly beyond the boundary. */
  predicate Safe0(line: Line<Vector>, bd: Plane)
  {
    Beyond(line.p0, bd, false)
  }

  /** `p1` is strictly beyond the boundary. */
  predicate Safe1(line: Line<Vector>, bd: Plane)
  {
    Beyond(line.p1, bd, false)
  }

  /** Exactly one endpoint is safe, so the segment crosses the boundary plane. */
  predicate Crosses(line: Line<Vector>, bd: Plane)
  {
    Safe0(line, bd) != Safe1(line, bd)
  }

  /**
   * The parameter at which the segment crosses the boundary plane: in (0, 1] when only `p0` is
   * safe, in [0, 1) when only `p1` is.
   */
  function Crossing(line: Line<Vector>, bd: Plane): (t: real)
    requires Crosses(line, bd)
    ensures Safe0(line, bd) ==> 0.0 < t <= 1.0
    ensures Safe1(line, bd) ==> 0.0 <= t < 1.0
  {
    var p0n := Dot(line.p0, bd.normal);
    var p1n := Dot(line.p1, bd.normal);
    CrossingParameterInRange(p0n - bd.threshold, p1n - bd.threshold);
    assert (p0n - bd.threshold) / ((p0n - bd.threshold) - (p1n - bd.threshold))
      == (p0n - bd.threshold) / (p0n - p1n);
    TIntersect(line, bd)
  }

  /** Some boundary of the set has both endpoints safe. */
  predicate AnyBothSafe(line: Line<Vector>, bs: seq<Plane>)
  {
    exists k :: 0 <= k < |bs| && Safe0(line, bs[k]) && Safe1(line, bs[k])
  }

  predicate AnySafe0(line: Line<Vector>, bs: seq<Plane>)
  {
    exists k :: 0 <= k < |bs| && Safe0(line, bs[k])
  }

  predicate AnySafe1(line: Line<Vector>, bs: seq<Plane>)
  {
    exists k :: 0 <= k < |bs| && Safe1(line, bs[k])
  }

  function Max(x: real, y: real): real { if x >= y then x else y }

  function MinR(x: real, y: real): real { if x <= y then x else y }

  /**
   * The value `a` reaches in the loop of `clip_line_convex`: 0 raised by `max` to the crossing
   * parameter of every boundary for which only `p0` is safe. It stays within [0, 1].
   */
  function EntryParam(line: Line<Vector>, bs: seq<Plane>): (a: real)
    ensures 0.0 <= a <= 1.0
  {
    if |bs| == 0 then 0.0
    else
      var a := EntryParam(line, bs[..|bs| - 1]);
      var bd := bs[|bs| - 1];
      if Safe0(line, bd) && !Safe1(line, bd) then Max(a, Crossing(line, bd)) else a
  }

  /**
   * The value `b` reaches in the loop of `clip_line_convex`: 1 lowered by `min` to the crossing
   * parameter of every boundary for which only `p1` is safe. It stays within [0, 1].
   */
  function ExitParam(line: Line<Vector>, bs: seq<Plane>): (b: real)
    ensures 0.0 <= b <= 1.0
  {
    if |bs| == 0 then 1.0
    else
      var b := ExitParam(line, bs[..|bs| - 1]);
      var bd := bs[|bs| - 1];
      if !Safe0(line, bd) && Safe1(line, bd) then MinR(b, Crossing(line, bd)) else b
  }

  /**
   * What `clip_line_convex` returns, with the loop's results written as the functions above:
   * the whole line for an empty set or when one boundary has both endpoints safe; otherwise the
   * pieces before `a` and after `b`, as far as the endpoints are safe for some boundary.
   */
  function ClipLineConvexSpec(line: Line<Vector>, bs: seq<Plane>): ReturnLines
  {
    if |bs| == 0 || AnyBothSafe(line, bs) then OneLine(line)
    else
      var a := EntryParam(line, bs);
      var b := ExitParam(line, bs);
      var p0AllSafe := AnySafe0(line, bs);
      var p1AllSafe := AnySafe1(line, bs);
      if p0AllSafe && p1AllSafe then
        if a > 0.0 && b <= 1.0 then
          TwoLines(Line(line.p0, LinePoint(line, a)), Line(LinePoint(line, b), line.p1))
        else OneLine(line)
      else if p0AllSafe then OneLine(Line(line.p0, LinePoint(line, a)))
      else if p1AllSafe then OneLine(Line(LinePoint(line, b), line.p1))
      else NoLines
  }

  /**
   * `clip_line_convex`: one pass over the boundaries tightening `a` and `b`, stopping at the
   * first boundary with both endpoints safe.
   */
  method ClipLineConvex(line: Line<Vector>, boundaries: seq<Plane>) returns (r: ReturnLines)
    ensures r == ClipLineConvexSpec(line, boundaries)
  {
    if |boundaries| == 0 {
      return OneLine(line);
    }
    var p0, p1 := line.p0, line.p1;
    var a, b := 0.0, 1.0;
    var p0AllSafe, p1AllSafe := false, false;
    var i := 0;
    while i < |boundaries|
      invariant 0 <= i <= |boundaries|
      invariant !AnyBothSafe(line, boundaries[..i])
      invariant 0.0 <= a && b <= 1.0
      invariant a == EntryParam(line, boundaries[..i]) && b == ExitParam(line, boundaries[..i])
      invariant p0AllSafe == AnySafe0(line, boundaries[..i])
      invariant p1AllSafe == AnySafe1(line, boundaries[..i])
    {
      var n := boundaries[i].normal;
      var th := boundaries[i].threshold;
      var p0n, p1n := Dot(p0, n), Dot(p1, n);
      var p0Safe, p1Safe := p0n > th, p1n > th;
      if p0Safe && p1Safe {
        a, b := 0.0, 1.0;
        p0AllSafe, p1AllSafe := true, true;
        BothSafeFound(line, boundaries, i);
        break;
      }
      ClipLineConvexStep(line, boundaries, i);
      if p0Safe && !p1Safe {
        var tIntersect := Crossing(line, boundaries[i]);
        a := Max(a, tIntersect);
      }
      if !p0Safe && p1Safe {
        var tIntersect := Crossing(line, boundaries[i]);
        b := MinR(b, tIntersect);
      }
      p0AllSafe := p0AllSafe || p0Safe;
      p1AllSafe := p1AllSafe || p1Safe;
      i := i + 1;
    }
    if i == |boundaries| {
      assert boundaries[..i] == boundaries;
    }
    if p0AllSafe && p1AllSafe {
      if a > 0.0 && b <= 1.0 {
        r := TwoLines(Line(p0, Linterp(p0, p1, a)), Line(Linterp(p0, p1, b), p1));
      } else {
        r := OneLine(line);
      }
    } else if p0AllSafe && !p1AllSafe {
      r := OneLine(Line(p0, Linterp(p0, p1, a)));
    } else if !p0AllSafe && p1AllSafe {
      r := OneLine(Line(Linterp(p0, p1, b), p1));
    } else {
      r := NoLines;
    }
  }

  /** A boundary with both endpoints safe settles `AnyBothSafe`. */
  lemma BothSafeFound(line: Line<Vector>, bs: seq<Plane>, i: int)
    requires 0 <= i < |bs| && Safe0(line, bs[i]) && Safe1(line, bs[i])
    ensures AnyBothSafe(line, bs)
  {
  }

  /** What one more boundary adds to each quantity `clip_line_convex` accumulates. */
  lemma ClipLineConvexStep(line: Line<Vector>, bs: seq<Plane>, i: int)
    requires 0 <= i < |bs|
    ensures var bd := bs[i];
      && (AnyBothSafe(line, bs[..i + 1]) <==> AnyBothSafe(line, bs[..i]) || (Safe0(line, bd) && Safe1(line, bd)))
      && (AnySafe0(line, bs[..i + 1]) <==> AnySafe0(line, bs[..i]) || Safe0(line, bd))
      && (AnySafe1(line, bs[..i + 1]) <==> AnySafe1(line, bs[..i]) || Safe1(line, bd))
      && EntryParam(line, bs[..i + 1]) ==
           (if Safe0(line, bd) && !Safe1(line, bd) then Max(EntryParam(line, bs[..i]), Crossing(line, bd))
            else EntryParam(line, bs[..i]))
      && ExitParam(line, bs[..i + 1]) ==
           (if !Safe0(line, bd) && Safe1(line, bd) then MinR(ExitParam(line, bs[..i]), Crossing(line, bd))
            else ExitParam(line, bs[..i]))
  {
    var pre := bs[..i + 1];
    assert pre[..i] == bs[..i];
    assert pre[i] == bs[i];
    if AnyBothSafe(line, pre) && !(Safe0(line, bs[i]) && Safe1(line, bs[i])) {
      var k :| 0 <= k < |pre| && Safe0(line, pre[k]) && Safe1(line, pre[k]);
      assert pre[k] == bs[..i][k];
    }
    if AnySafe0(line, pre) && !Safe0(line, bs[i]) {
      var k :| 0 <= k < |pre| && Safe0(line, pre[k]);
      assert pre[k] == bs[..i][k];
    }
    if AnySafe1(line, pre) && !Safe1(line, bs[i]) {
      var k :| 0 <= k < |pre| && Safe1(line, pre[k]);
      assert pre[k] == bs[..i][k];
    }
    if AnyBothSafe(line, bs[..i]) {
      var k :| 0 <= k < i && Safe0(line, bs[..i][k]) && Safe1(line, bs[..i][k]);
      assert pre[k] == bs[..i][k];
    }
    if AnySafe0(line, bs[..i]) {
      var k :| 0 <= k < i && Safe0(line, bs[..i][k]);
      assert pre[k] == bs[..i][k];
    }
    if AnySafe1(line, bs[..i]) {
      var k :| 0 <= k < i && Safe1(line, bs[..i][k]);
      assert pre[k] == bs[..i][k];
    }
  }

  /** Every boundary crossed with only `p0` safe has its crossing at or before `a`. */
  lemma {:induction false} EntryParamBound(line: Line<Vector>, bs: seq<Plane>, k: int)
    requires 0 <= k < |bs| && Safe0(line, bs[k]) && !Safe1(line, bs[k])
    ensures Crossing(line, bs[k]) <= EntryParam(line, bs)
  {
    if k < |bs| - 1 {
      assert bs[..|bs| - 1][k] == bs[k];
      EntryParamBound(line, bs[..|bs| - 1], k);
    }
  }

  /** Boundary `k` has only `p0` safe and its crossing is `a`. */
  predicate EntryAt(line: Line<Vector>, bs: seq<Plane>, k: int)
  {
    0 <= k < |bs| && Safe0(line, bs[k]) && !Safe1(line, bs[k])
    && Crossing(line, bs[k]) == EntryParam(line, bs)
  }

  /** Boundary `k` has only `p1` safe and its crossing is `b`. */
  predicate ExitAt(line: Line<Vector>, bs: seq<Plane>, k: int)
  {
    0 <= k < |bs| && !Safe0(line, bs[k]) && Safe1(line, bs[k])
    && Crossing(line, bs[k]) == ExitParam(line, bs)
  }

  /** A positive `a` is the crossing parameter of a boundary with only `p0` safe. */
  lemma {:induction false} EntryParamAttained(line: Line<Vector>, bs: seq<Plane>)
    requires EntryParam(line, bs) > 0.0
    ensures exists k :: EntryAt(line, bs, k)
  {
    var init := bs[..|bs| - 1];
    var bd := bs[|bs| - 1];
    if Safe0(line, bd) && !Safe1(line, bd) && Crossing(line, bd) >= EntryParam(line, init) {
      assert EntryAt(line, bs, |bs| - 1);
    } else {
      EntryParamAttained(line, init);
      var k :| EntryAt(line, init, k);
      assert bs[k] == init[k];
      assert EntryAt(line, bs, k);
    }
  }

  /** Every boundary crossed with only `p1` safe has its crossing at or after `b`. */
  lemma {:induction false} ExitParamBound(line: Line<Vector>, bs: seq<Plane>, k: int)
    requires 0 <= k < |bs| && !Safe0(line, bs[k]) && Safe1(line, bs[k])
    ensures ExitParam(line, bs) <= Crossing(line, bs[k])
  {
    if k < |bs| - 1 {
      assert bs[..|bs| - 1][k] == bs[k];
      ExitParamBound(line, bs[..|bs| - 1], k);
    }
  }

  /** A `b` below 1 is the crossing parameter of a boundary with only `p1` safe. */
  lemma {:induction false} ExitParamAttained(line: Line<Vector>, bs: seq<Plane>)
    requires ExitParam(line, bs) < 1.0
    ensures exists k :: ExitAt(line, bs, k)
  {
    var init := bs[..|bs| - 1];
    var bd := bs[|bs| - 1];
    if !Safe0(line, bd) && Safe1(line, bd) && Crossing(line, bd) <= ExitParam(line, init) {
      assert ExitAt(line, bs, |bs| - 1);
    } else {
      ExitParamAttained(line, init);
      var k :| ExitAt(line, init, k);
      assert bs[k] == init[k];
      assert ExitAt(line, bs, k);
    }
  }

  /**
   * The candidate cases of `clip_line_convex`: an empty set, or a set with a boundary that both
   * endpoints strictly exceed, returns the line unchanged; a set where no boundary has either
   * endpoint strictly beyond it returns no line.
   */
  lemma ClipLineConvexWholeOrNothing(line: Line<Vector>, bs: seq<Plane>)
    ensures |bs| == 0 ==> ClipLineConvexSpec(line, bs) == OneLine(line)
    ensures (exists k :: 0 <= k < |bs| && Safe0(line, bs[k]) && Safe1(line, bs[k]))
      ==> ClipLineConvexSpec(line, bs) == OneLine(line)
    ensures |bs| > 0 && (forall k :: 0 <= k < |bs| ==> !Safe0(line, bs[k]) && !Safe1(line, bs[k]))
      ==> ClipLineConvexSpec(line, bs) == NoLines
  {
  }

  /** A parameter interval `[lo, hi]` of the segment. */
  datatype Span = Span(lo: real, hi: real)

  /** The segment piece a parameter interval stands for. */
  function SpanLine(line: Line<Vector>, sp: Span): Line<Vector>
  {
    Line(LinePoint(line, sp.lo), LinePoint(line, sp.hi))
  }

  /** The parameter intervals of the pieces `clip_line_convex` keeps. */
  function ConvexClipSpans(line: Line<Vector>, bs: seq<Plane>): seq<Span>
  {
    if |bs| == 0 || AnyBothSafe(line, bs) then [Span(0.0, 1.0)]
    else
      var a := EntryParam(line, bs);
      var b := ExitParam(line, bs);
      var p0AllSafe := AnySafe0(line, bs);
      var p1AllSafe := AnySafe1(line, bs);
      if p0AllSafe && p1AllSafe then
        if a > 0.0 && b <= 1.0 then [Span(0.0, a), Span(b, 1.0)] else [Span(0.0, 1.0)]
      else if p0AllSafe then [Span(0.0, a)]
      else if p1AllSafe then [Span(b, 1.0)]
      else []
  }

  predicate InSpans(spans: seq<Span>, s: real)
  {
    exists k :: 0 <= k < |spans| && spans[k].lo <= s <= spans[k].hi
  }

  /** When `p0` is safe for some boundary and no boundary has both safe, `a` is positive. */
  lemma EntryPositive(line: Line<Vector>, bs: seq<Plane>)
    requires !AnyBothSafe(line, bs) && AnySafe0(line, bs)
    ensures EntryParam(line, bs) > 0.0
  {
    var k :| 0 <= k < |bs| && Safe0(line, bs[k]);
    EntryParamBound(line, bs, k);
  }

  /** When `p1` is safe for some boundary and no boundary has both safe, `b` is below 1. */
  lemma ExitBelowOne(line: Line<Vector>, bs: seq<Plane>)
    requires !AnyBothSafe(line, bs) && AnySafe1(line, bs)
    ensures ExitParam(line, bs) < 1.0
  {
    var k :| 0 <= k < |bs| && Safe1(line, bs[k]);
    ExitParamBound(line, bs, k);
  }

  /**
   * The pieces `clip_line_convex` returns are, in order, the segment pieces over the intervals
   * of `ConvexClipSpans`, and those intervals are non-empty sub-intervals of [0, 1].
   */
  lemma ClipLineConvexPieces(line: Line<Vector>, bs: seq<Plane>)
    requires |line.p0| == |line.p1|
    ensures var spans := ConvexClipSpans(line, bs);
      && (forall k :: 0 <= k < |spans| ==> 0.0 <= spans[k].lo <= spans[k].hi <= 1.0)
      && Lines(ClipLineConvexSpec(line, bs)) == seq(|spans|, k requires 0 <= k < |spans| => SpanLine(line, spans[k]))
  {
    var spans := ConvexClipSpans(line, bs);
    var rl := ClipLineConvexSpec(line, bs);
    LinesInOrder(rl);
    LinterpEnds(line.p0, line.p1);
    assert LinePoint(line, 0.0) == line.p0 && LinePoint(line, 1.0) == line.p1;
    if |bs| > 0 && !AnyBothSafe(line, bs) {
      if AnySafe0(line, bs) {
        EntryPositive(line, bs);
      }
      if AnySafe1(line, bs) {
        ExitBelowOne(line, bs);
      }
    }
  }

  /**
   * Nothing kept is hidden: with a non-empty boundary set, every point of a piece
   * `clip_line_convex` keeps lies on or beyond at least one boundary plane.
   */
  lemma ClipLineConvexKeepsUnhidden(line: Line<Vector>, bs: seq<Plane>, s: real)
    requires |bs| > 0 && |line.p0| == |line.p1|
    requires forall k :: 0 <= k < |bs| ==> |bs[k].normal| == |line.p0|
    requires InSpans(ConvexClipSpans(line, bs), s)
    ensures exists k :: 0 <= k < |bs| && Dot(LinePoint(line, s), bs[k].normal) >= bs[k].threshold
  {
    var spans := ConvexClipSpans(line, bs);
    var i :| 0 <= i < |spans| && spans[i].lo <= s <= spans[i].hi;
    if AnyBothSafe(line, bs) {
      var k :| 0 <= k < |bs| && Safe0(line, bs[k]) && Safe1(line, bs[k]);
      MarginAt(line, bs[k], s);
      InterpAbove(Dot(line.p0, bs[k].normal), Dot(line.p1, bs[k].normal), bs[k].threshold, s);
      UnhiddenBy(line, bs, s, k);
    } else {
      var a := EntryParam(line, bs);
      var b := ExitParam(line, bs);
      if AnySafe0(line, bs) {
        EntryPositive(line, bs);
      }
      if AnySafe1(line, bs) {
        ExitBelowOne(line, bs);
      }
      if spans[i] == Span(0.0, a) {
        EntryParamAttained(line, bs);
        var k :| EntryAt(line, bs, k);
        MarginAt(line, bs[k], s);
        DecreasingMargin(Dot(line.p0, bs[k].normal), Dot(line.p1, bs[k].normal), bs[k].threshold, s);
        UnhiddenBy(line, bs, s, k);
      } else {
        assert spans[i] == Span(b, 1.0);
        ExitParamAttained(line, bs);
        var k :| ExitAt(line, bs, k);
        MarginAt(line, bs[k], s);
        IncreasingMargin(Dot(line.p0, bs[k].normal), Dot(line.p1, bs[k].normal), bs[k].threshold, s);
        UnhiddenBy(line, bs, s, k);
      }
    }
  }

  /** Boundary `k` witnesses that the point at `s` is not hidden. */
  lemma UnhiddenBy(line: Line<Vector>, bs: seq<Plane>, s: real, k: int)
    requires 0 <= k < |bs| && Dot(LinePoint(line, s), bs[k].normal) >= bs[k].threshold
    ensures exists j :: 0 <= j < |bs| && Dot(LinePoint(line, s), bs[j].normal) >= bs[j].threshold
  {
  }

  /**
   * Nothing dropped is visible: every point of the segment outside the kept pieces lies on the
   * inner side of every boundary plane, inside the occluding shape's region.
   */
  lemma ClipLineConvexDropsOnlyHidden(line: Line<Vector>, bs: seq<Plane>, s: real)
    requires |line.p0| == |line.p1|
    requires forall k :: 0 <= k < |bs| ==> |bs[k].normal| == |line.p0|
    requires 0.0 <= s <= 1.0 && !InSpans(ConvexClipSpans(line, bs), s)
    ensures forall k :: 0 <= k < |bs| ==> Dot(LinePoint(line, s), bs[k].normal) <= bs[k].threshold
  {
    forall k | 0 <= k < |bs|
      ensures Dot(LinePoint(line, s), bs[k].normal) <= bs[k].threshold
    {
      DroppedBelowBoundary(line, bs, s, k);
    }
  }

  /** Outside the kept intervals, `s` lies after `a` and before `b`. */
  lemma OutsideSpans(line: Line<Vector>, bs: seq<Plane>, s: real)
    requires 0.0 <= s <= 1.0 && !InSpans(ConvexClipSpans(line, bs), s)
    ensures |bs| > 0 && !AnyBothSafe(line, bs)
    ensures AnySafe0(line, bs) ==> EntryParam(line, bs) < s
    ensures AnySafe1(line, bs) ==> s < ExitParam(line, bs)
  {
    var spans := ConvexClipSpans(line, bs);
    WholeSpanKept(line, bs, s);
    if |bs| > 0 && !AnyBothSafe(line, bs) {
      if AnySafe0(line, bs) {
        EntryPositive(line, bs);
        assert spans[0] == Span(0.0, EntryParam(line, bs));
      }
      if AnySafe1(line, bs) {
        ExitBelowOne(line, bs);
        assert spans[|spans| - 1] == Span(ExitParam(line, bs), 1.0);
      }
    }
  }

  /** With no boundaries, or one that both endpoints exceed, every parameter in [0, 1] is kept. */
  lemma WholeSpanKept(line: Line<Vector>, bs: seq<Plane>, s: real)
    requires 0.0 <= s <= 1.0
    ensures |bs| == 0 || AnyBothSafe(line, bs) ==> InSpans(ConvexClipSpans(line, bs), s)
  {
    if |bs| == 0 || AnyBothSafe(line, bs) {
      assert ConvexClipSpans(line, bs)[0] == Span(0.0, 1.0);
    }
  }

  /** A dropped point is on the inner side of boundary `k`. */
  lemma DroppedBelowBoundary(line: Line<Vector>, bs: seq<Plane>, s: real, k: int)
    requires |line.p0| == |line.p1|
    requires forall k :: 0 <= k < |bs| ==> |bs[k].normal| == |line.p0|
    requires 0.0 <= s <= 1.0 && !InSpans(ConvexClipSpans(line, bs), s)
    requires 0 <= k < |bs|
    ensures Dot(LinePoint(line, s), bs[k].normal) <= bs[k].threshold
  {
    OutsideSpans(line, bs, s);
    var x0, x1, th := Dot(line.p0, bs[k].normal), Dot(line.p1, bs[k].normal), bs[k].threshold;
    MarginAt(line, bs[k], s);
    if Safe0(line, bs[k]) {
      assert !Safe1(line, bs[k]);
      assert AnySafe0(line, bs);
      EntryParamBound(line, bs, k);
      DecreasingMargin(x0, x1, th, s);
    } else if Safe1(line, bs[k]) {
      assert AnySafe1(line, bs);
      ExitParamBound(line, bs, k);
      IncreasingMargin(x0, x1, th, s);
    } else {
      InterpBelow(x0, x1, th, s);
    }
  }

  /** The margin of a point of the segment interpolates the endpoint margins. */
  lemma MarginAt(line: Line<Vector>, bd: Plane, s: real)
    requires |line.p0| == |line.p1| == |bd.normal|
    ensures Dot(LinePoint(line, s), bd.normal)
      == ScalarLinterp(Dot(line.p0, bd.normal), Dot(line.p1, bd.normal), s)
  {
    DotLinterp(line.p0, line.p1, bd.normal, s);
  }

  // ---------------------------------------------------------------------------------------------
  // clip_line

  /** The pieces of clipping each line of `lines` by one boundary set, concatenated in order. */
  function ClipEach(lines: seq<Line<Vector>>, bs: seq<Plane>): seq<Line<Vector>>
  {
    if |lines| == 0 then []
    else ClipEach(lines[..|lines| - 1], bs) + Lines(ClipLineConvexSpec(lines[|lines| - 1], bs))
  }

  /** The pieces of `line` left after clipping by every boundary set in turn. */
  function ClipThrough(line: Line<Vector>, sets: seq<seq<Plane>>): seq<Line<Vector>>
  {
    if |sets| == 0 then [line]
    else ClipEach(ClipThrough(line, sets[..|sets| - 1]), sets[|sets| - 1])
  }

  /** Each boundary set at most doubles the number of pieces. */
  lemma {:induction false} ClipThroughCount(line: Line<Vector>, sets: seq<seq<Plane>>)
    ensures |ClipThrough(line, sets)| <= Pow2(|sets|)
  {
    if |sets| > 0 {
      ClipThroughCount(line, sets[..|sets| - 1]);
      ClipEachCount(ClipThrough(line, sets[..|sets| - 1]), sets[|sets| - 1]);
    }
  }

  lemma {:induction false} ClipEachCount(lines: seq<Line<Vector>>, bs: seq<Plane>)
    ensures |ClipEach(lines, bs)| <= 2 * |lines|
  {
    if |lines| > 0 {
      ClipEachCount(lines[..|lines| - 1], bs);
      LinesInOrder(ClipLineConvexSpec(lines[|lines| - 1], bs));
    }
  }

  /** The inner `flat_map` of `clip_line`: the pieces of each line, concatenated in order. */
  method ClipAll(lines: seq<Line<Vector>>, bs: seq<Plane>) returns (pieces: seq<Line<Vector>>)
    ensures pieces == ClipEach(lines, bs)
  {
    pieces := [];
    for j := 0 to |lines|
      invariant pieces == ClipEach(lines[..j], bs)
    {
      var rl := ClipLineConvex(lines[j], bs);
      assert lines[..j + 1][..j] == lines[..j];
      pieces := pieces + Lines(rl);
    }
    assert lines[..|lines|] == lines;
  }

  lemma ClipThroughStep(line: Line<Vector>, sets: seq<seq<Plane>>, i: int)
    requires 0 <= i < |sets|
    ensures ClipThrough(line, sets[..i + 1]) == ClipEach(ClipThrough(line, sets[..i]), sets[i])
  {
    assert sets[..i + 1][..i] == sets[..i];
  }

  /**
   * `clip_line`: append to `writeLines` the pieces of `line` left after every boundary set,
   * reusing `scratch` to hold the previous round's pieces. The lines already in `writeLines`
   * are left as they were; with no boundary sets exactly `line` is appended.
   */
  method ClipLine(line: Line<Vector>, boundaries: seq<seq<Plane>>, writeLines: seq<Line<Vector>>,
                  scratch: seq<Line<Vector>>)
    returns (written: seq<Line<Vector>>, scratchOut: seq<Line<Vector>>)
    ensures written == writeLines + ClipThrough(line, boundaries)
    ensures |boundaries| == 0 ==> scratchOut == scratch
    ensures |boundaries| > 0 ==> scratchOut == ClipThrough(line, boundaries[..|boundaries| - 1])
  {
    var len := |writeLines|;
    written := writeLines + [line];
    scratchOut := scratch;
    var newLen := |written|;
    for i := 0 to |boundaries|
      invariant newLen == |written| >= len
      invariant written == writeLines + ClipThrough(line, boundaries[..i])
      invariant i > 0 ==> scratchOut == ClipThrough(line, boundaries[..i - 1])
      invariant i == 0 ==> scratchOut == scratch
    {
      ghost var prev := ClipThrough(line, boundaries[..i]);
      assert written[len..newLen] == prev;
      assert written[..len] == writeLines;
      scratchOut := written[len..newLen];
      written := written[..len];
      var pieces := ClipAll(scratchOut, boundaries[i]);
      written := written + pieces;
      ClipThroughStep(line, boundaries, i);
      newLen := |written|;
    }
    assert boundaries[..|boundaries|] == boundaries;
  }
}
