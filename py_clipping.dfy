/**
 * The Python clipping module `Clipping.py`, the first form of the engine's visibility clipping.
 * It is the algorithm of `src/draw/clipping.rs` with inclusive comparisons: an endpoint is safe
 * from a boundary when `dot(p, normal) >= threshold`, and a point is clipped (hidden) when no
 * boundary of the set has it safe. Its `clip_line_plane` and `calc_boundary` are the same
 * expressions as the Rust ones and are modelled there (`Clipping.ClipLinePlane`,
 * `Boundaries.CalcConvexBoundary`). Sphere and cylinder clipping use a square root, which is a
 * parameter here (`IsSqrt`).
 */
module PyClipping {
  import opened Wrappers
  import opened Vectors
  import opened Geometry
  import Clipping

  // ---------------------------------------------------------------------------------------------
  // point_clipped

  /**
   * `point_clipped`: scan the boundaries and answer "not clipped" at the first one that has the
   * point at or beyond its threshold raised by `dth`; with no such boundary (or none at all) the
   * point is clipped.
   */
  function PointClipped(point: Vector, boundaries: seq<Plane>, dth: real): bool
  {
    if |boundaries| == 0 then true
    else if Dot(point, boundaries[0].normal) >= boundaries[0].threshold + dth then false
    else PointClipped(point, boundaries[1..], dth)
  }

  /** A point is clipped exactly when it is below every (raised) boundary. */
  lemma {:induction false} PointClippedIff(point: Vector, boundaries: seq<Plane>, dth: real)
    ensures PointClipped(point, boundaries, dth)
      <==> forall k :: 0 <= k < |boundaries| ==> Dot(point, boundaries[k].normal) < boundaries[k].threshold + dth
  {
    if |boundaries| > 0 {
      PointClippedIff(point, boundaries[1..], dth);
      forall k | 1 <= k < |boundaries|
        ensures boundaries[1..][k - 1] == boundaries[k]
      {
      }
    }
  }

  // ---------------------------------------------------------------------------------------------
  // clip_line

  /** `p0_safe`: `p0` at or beyond the boundary. */
  predicate Safe0(line: Line<Vector>, bd: Plane)
  {
    Beyond(line.p0, bd, true)
  }

  /** `p1_safe`: `p1` at or beyond the boundary. */
  predicate Safe1(line: Line<Vector>, bd: Plane)
  {
    Beyond(line.p1, bd, true)
  }

  /** `t_intersect` of a boundary with exactly one safe endpoint: a parameter in [0, 1]. */
  function Crossing(line: Line<Vector>, bd: Plane): (t: real)
    requires Safe0(line, bd) != Safe1(line, bd)
    ensures 0.0 <= t <= 1.0
  {
    TIntersect(line, bd)
  }

  predicate AnyBothSafe(line: Line<Vector>, bs: seq<Plane>)
  {
    exists k :: 0 <= k < |bs| && Safe0(line, bs[k]) && Safe1(line, bs[k])
  }

  predicate AnySafe0(line: Line<Vector>, bs: seq<Plane>)
  {
    exists k :: 0 <= k < |bs| && Safe0(line, bs[k])
  }

  predicate AnySafe1(line: Line<Vector>, bs: seq<Plane>)
  {
    exists k :: 0 <= k < |bs| && Safe1(line, bs[k])
  }

  /** The `a` of the loop: 0 raised to the crossing of every boundary that only `p0` is safe from. */
  function EntryParam(line: Line<Vector>, bs: seq<Plane>): (a: real)
    ensures 0.0 <= a <= 1.0
  {
    if |bs| == 0 then 0.0
    else
      var a := EntryParam(line, bs[..|bs| - 1]);
      var bd := bs[|bs| - 1];
      if Safe0(line, bd) && !Safe1(line, bd) then Clipping.Max(a, Crossing(line, bd)) else a
  }

  /** The `b` of the loop: 1 lowered to the crossing of every boundary that only `p1` is safe from. */
  function ExitParam(line: Line<Vector>, bs: seq<Plane>): (b: real)
    ensures 0.0 <= b <= 1.0
  {
    if |bs| == 0 then 1.0
    else
      var b := ExitParam(line, bs[..|bs| - 1]);
      var bd := bs[|bs| - 1];
      if !Safe0(line, bd) && Safe1(line, bd) then Clipping.MinR(b, Crossing(line, bd)) else b
  }

  /**
   * What `clip_line` returns: the whole line when one boundary has both endpoints safe;
   * otherwise, as far as each endpoint is safe from some boundary, the piece from `p0` to `a`
   * and the piece from `b` to `p1` (both only when `a > 0` and `b < 1`, else the whole line).
   * Unlike the Rust version an empty boundary set clips the whole line.
   */
  function ClipLineSpec(line: Line<Vector>, bs: seq<Plane>): seq<Line<Vector>>
  {
    if AnyBothSafe(line, bs) then [line]
    else
      var a := EntryParam(line, bs);
      var b := ExitParam(line, bs);
      var p0AllSafe := AnySafe0(line, bs);
      var p1AllSafe := AnySafe1(line, bs);
      if p0AllSafe && p1AllSafe then
        if a > 0.0 && b < 1.0 then [Line(line.p0, LinePoint(line, a)), Line(LinePoint(line, b), line.p1)]
        else [line]
      else if p0AllSafe then [Line(line.p0, LinePoint(line, a))]
      else if p1AllSafe then [Line(LinePoint(line, b), line.p1)]
      else []
  }

  /** `clip_line`: one pass over the boundaries, stopping at one with both endpoints safe. */
  method ClipLine(line: Line<Vector>, boundaries: seq<Plane>) returns (r: seq<Line<Vector>>)
    ensures r == ClipLineSpec(line, boundaries)
  {
    var p0, p1 := line.p0, line.p1;
    var a, b := 0.0, 1.0;
    var p0AllSafe, p1AllSafe := false, false;
    var i := 0;
    while i < |boundaries|
      invariant 0 <= i <= |boundaries|
      invariant !AnyBothSafe(line, boundaries[..i])
      invariant a == EntryParam(line, boundaries[..i]) && b == ExitParam(line, boundaries[..i])
      invariant p0AllSafe == AnySafe0(line, boundaries[..i])
      invariant p1AllSafe == AnySafe1(line, boundaries[..i])
    {
      var n := boundaries[i].normal;
      var th := boundaries[i].threshold;
      var p0n, p1n := Dot(p0, n), Dot(p1, n);
      var p0Safe, p1Safe := p0n >= th, p1n >= th;
      if p0Safe && p1Safe {
        a, b := 0.0, 1.0;
        p0AllSafe, p1AllSafe := true, true;
        BothSafeFound(line, boundaries, i);
        break;
      }
      ClipLineStep(line, boundaries, i);
      if p0Safe && !p1Safe {
        var tIntersect := Crossing(line, boundaries[i]);
        a := Clipping.Max(a, tIntersect);
      }
      if !p0Safe && p1Safe {
        var tIntersect := Crossing(line, boundaries[i]);
        b := Clipping.MinR(tIntersect, b);
      }
      p0AllSafe := p0AllSafe || p0Safe;
      p1AllSafe := p1AllSafe || p1Safe;
      i := i + 1;
    }
    if i == |boundaries| {
      assert boundaries[..i] == boundaries;
    }
    if p0AllSafe && p1AllSafe {
      if a > 0.0 && b < 1.0 {
        return [Line(p0, Linterp(p0, p1, a)), Line(Linterp(p0, p1, b), p1)];
      } else {
        return [line];
      }
    }
    if p0AllSafe && !p1AllSafe {
      return [Line(p0, Linterp(p0, p1, a))];
    }
    if !p0AllSafe && p1AllSafe {
      return [Line(Linterp(p0, p1, b), p1)];
    }
    return [];
  }

  /** A boundary with both endpoints safe settles `AnyBothSafe`. */
  lemma BothSafeFound(line: Line<Vector>, bs: seq<Plane>, i: int)
    requires 0 <= i < |bs| && Safe0(line, bs[i]) && Safe1(line, bs[i])
    ensures AnyBothSafe(line, bs)
  {
  }

  /** What one more boundary adds to each quantity `clip_line` accumulates. */
  lemma ClipLineStep(line: Line<Vector>, bs: seq<Plane>, i: int)
    requires 0 <= i < |bs|
    ensures var bd := bs[i];
      && (AnyBothSafe(line, bs[..i + 1]) <==> AnyBothSafe(line, bs[..i]) || (Safe0(line, bd) && Safe1(line, bd)))
      && (AnySafe0(line, bs[..i + 1]) <==> AnySafe0(line, bs[..i]) || Safe0(line, bd))
      && (AnySafe1(line, bs[..i + 1]) <==> AnySafe1(line, bs[..i]) || Safe1(line, bd))
      && EntryParam(line, bs[..i + 1]) ==
           (if Safe0(line, bd) && !Safe1(line, bd) then Clipping.Max(EntryParam(line, bs[..i]), Crossing(line, bd))
            else EntryParam(line, bs[..i]))
      && ExitParam(line, bs[..i + 1]) ==
           (if !Safe0(line, bd) && Safe1(line, bd) then Clipping.MinR(ExitParam(line, bs[..i]), Crossing(line, bd))
            else ExitParam(line, bs[..i]))
  {
    var pre := bs[..i + 1];
    assert pre[..i] == bs[..i];
    assert pre[i] == bs[i];
    if AnyBothSafe(line, pre) && !(Safe0(line, bs[i]) && Safe1(line, bs[i])) {
      var k :| 0 <= k < |pre| && Safe0(line, pre[k]) && Safe1(line, pre[k]);
      assert pre[k] == bs[..i][k];
    }
    if AnySafe0(line, pre) && !Safe0(line, bs[i]) {
      var k :| 0 <= k < |pre| && Safe0(line, pre[k]);
      assert pre[k] == bs[..i][k];
    }
    if AnySafe1(line, pre) && !Safe1(line, bs[i]) {
      var k :| 0 <= k < |pre| && Safe1(line, pre[k]);
      assert pre[k] == bs[..i][k];
    }
    if AnyBothSafe(line, bs[..i]) {
      var k :| 0 <= k < i && Safe0(line, bs[..i][k]) && Safe1(line, bs[..i][k]);
      assert pre[k] == bs[..i][k];
    }
    if AnySafe0(line, bs[..i]) {
      var k :| 0 <= k < i && Safe0(line, bs[..i][k]);
      assert pre[k] == bs[..i][k];
    }
    if AnySafe1(line, bs[..i]) {
      var k :| 0 <= k < i && Safe1(line, bs[..i][k]);
      assert pre[k] == bs[..i][k];
    }
  }

  /** `!point_clipped(p, bs)` says exactly that some boundary has `p` safe. */
  lemma NotClippedIsSafe(line: Line<Vector>, bs: seq<Plane>)
    ensures !PointClipped(line.p0, bs, 0.0) <==> AnySafe0(line, bs)
    ensures !PointClipped(line.p1, bs, 0.0) <==> AnySafe1(line, bs)
  {
    PointClippedIff(line.p0, bs, 0.0);
    PointClippedIff(line.p1, bs, 0.0);
    if AnySafe0(line, bs) {
      var k :| 0 <= k < |bs| && Safe0(line, bs[k]);
      assert Dot(line.p0, bs[k].normal) >= bs[k].threshold + 0.0;
    }
    if AnySafe1(line, bs) {
      var k :| 0 <= k < |bs| && Safe1(line, bs[k]);
      assert Dot(line.p1, bs[k].normal) >= bs[k].threshold + 0.0;
    }
  }

  /**
   * `clip_line` agrees with `point_clipped` on the endpoints: it returns at most two pieces,
   * two only when the line passes behind the shape (`a > 0` and `b < 1`); nothing exactly when
   * both endpoints are clipped; and an endpoint that is not clipped stays the first (last)
   * endpoint of the pieces.
   */
  lemma ClipLineAgreesWithPointClipped(line: Line<Vector>, bs: seq<Plane>)
    ensures var r := ClipLineSpec(line, bs);
      && |r| <= 2
      && (|r| == 2 ==> EntryParam(line, bs) > 0.0 && ExitParam(line, bs) < 1.0)
      && (|r| == 0 <==> PointClipped(line.p0, bs, 0.0) && PointClipped(line.p1, bs, 0.0))
      && (!PointClipped(line.p0, bs, 0.0) ==> |r| > 0 && r[0].p0 == line.p0)
      && (!PointClipped(line.p1, bs, 0.0) ==> |r| > 0 && r[|r| - 1].p1 == line.p1)
  {
    NotClippedIsSafe(line, bs);
    if AnyBothSafe(line, bs) {
      var k :| 0 <= k < |bs| && Safe0(line, bs[k]) && Safe1(line, bs[k]);
      assert AnySafe0(line, bs) && AnySafe1(line, bs);
    }
  }

  // ---------------------------------------------------------------------------------------------
  // clip_lines

  /**
   * A shape as `clip_lines` sees it: its identity (`is` compares objects; here shapes with equal
   * `id` are the same object), whether it is transparent, and its boundary set.
   */
  datatype Shape = Shape(id: nat, transparent: bool, boundaries: seq<Plane>)

  /** `clipping_shape is not shape and not clipping_shape.transparent`. */
  predicate Occludes(clippingShape: Shape, shape: Shape)
  {
    clippingShape.id != shape.id && !clippingShape.transparent
  }

  /** `flatten([clip_line(line, bs) for line in lines])`. */
  function ClipEach(lines: seq<Line<Vector>>, bs: seq<Plane>): (r: seq<Line<Vector>>)
    ensures |r| <= 2 * |lines|
  {
    if |lines| == 0 then []
    else
      ClipLineAgreesWithPointClipped(lines[|lines| - 1], bs);
      ClipEach(lines[..|lines| - 1], bs) + ClipLineSpec(lines[|lines| - 1], bs)
  }

  /** The lines after every shape of `shapes` in turn, skipping `shape` itself and transparent ones. */
  function ClipAgainst(lines: seq<Line<Vector>>, shape: Shape, shapes: seq<Shape>): seq<Line<Vector>>
  {
    if |shapes| == 0 then lines
    else
      var before := ClipAgainst(lines, shape, shapes[..|shapes| - 1]);
      var cs := shapes[|shapes| - 1];
      if Occludes(cs, shape) then ClipEach(before, cs.boundaries) else before
  }

  /** The boundary sets of the occluding shapes, in order. */
  function OccluderBoundaries(shape: Shape, shapes: seq<Shape>): (r: seq<seq<Plane>>)
    ensures |r| <= |shapes|
  {
    if |shapes| == 0 then []
    else
      var rest := OccluderBoundaries(shape, shapes[..|shapes| - 1]);
      var cs := shapes[|shapes| - 1];
      if Occludes(cs, shape) then rest + [cs.boundaries] else rest
  }

  /** The lines after every boundary set in turn. */
  function ClipThroughSets(lines: seq<Line<Vector>>, sets: seq<seq<Plane>>): seq<Line<Vector>>
  {
    if |sets| == 0 then lines
    else ClipEach(ClipThroughSets(lines, sets[..|sets| - 1]), sets[|sets| - 1])
  }

  /**
   * `clip_lines` applies `clip_line` against the occluding shapes only: the skipped shapes (the
   * owner and the transparent ones) change nothing, so the result is that of clipping through
   * the occluders' boundary sets in order.
   */
  lemma {:induction false} ClipAgainstOccludersOnly(lines: seq<Line<Vector>>, shape: Shape, shapes: seq<Shape>)
    ensures ClipAgainst(lines, shape, shapes) == ClipThroughSets(lines, OccluderBoundaries(shape, shapes))
  {
    if |shapes| > 0 {
      var init := shapes[..|shapes| - 1];
      var cs := shapes[|shapes| - 1];
      ClipAgainstOccludersOnly(lines, shape, init);
      var sets := OccluderBoundaries(shape, init);
      if Occludes(cs, shape) {
        assert (sets + [cs.boundaries])[..|sets|] == sets;
      }
    }
  }

  /** With no occluder among the shapes the lines come back unchanged. */
  lemma NoOccluderKeepsLines(lines: seq<Line<Vector>>, shape: Shape, shapes: seq<Shape>)
    requires forall k :: 0 <= k < |shapes| ==> !Occludes(shapes[k], shape)
    ensures ClipAgainst(lines, shape, shapes) == lines
  {
    ClipAgainstOccludersOnly(lines, shape, shapes);
    NoOccluderBoundaries(shape, shapes);
  }

  lemma {:induction false} NoOccluderBoundaries(shape: Shape, shapes: seq<Shape>)
    requires forall k :: 0 <= k < |shapes| ==> !Occludes(shapes[k], shape)
    ensures OccluderBoundaries(shape, shapes) == []
  {
    if |shapes| > 0 {
      NoOccluderBoundaries(shape, shapes[..|shapes| - 1]);
    }
  }

  /**
   * `clip_lines` as written: `clipped_lines` is bound only inside the loop, so with no clipping
   * shapes the `return` raises `UnboundLocalError` (here an `Err`). Otherwise it returns the
   * lines clipped against the occluding shapes.
   */
  method ClipLinesAsWritten(lines: seq<Line<Vector>>, shape: Shape, clippingShapes: seq<Shape>)
    returns (r: Result<seq<Line<Vector>>, string>)
    ensures |clippingShapes| == 0 ==> r == Err("UnboundLocalError")
    ensures |clippingShapes| > 0 ==> r == Ok(ClipAgainst(lines, shape, clippingShapes))
  {
    var current := lines;
    var clippedLines: Option<seq<Line<Vector>>> := None;
    for i := 0 to |clippingShapes|
      invariant current == ClipAgainst(lines, shape, clippingShapes[..i])
      invariant i == 0 ==> clippedLines.None?
      invariant i > 0 ==> clippedLines == Some(current)
    {
      assert clippingShapes[..i + 1][..i] == clippingShapes[..i];
      var cs := clippingShapes[i];
      if Occludes(cs, shape) {
        current := ClipEach(current, cs.boundaries);
        clippedLines := Some(current);
      } else {
        clippedLines := Some(current);
      }
    }
    assert clippingShapes[..|clippingShapes|] == clippingShapes;
    if clippedLines.None? {
      return Err("UnboundLocalError");
    }
    return Ok(clippedLines.value);
  }

  /** `clip_lines` as intended: the same loop returning the rebound `lines`, also when there are no shapes. */
  method ClipLines(lines: seq<Line<Vector>>, shape: Shape, clippingShapes: seq<Shape>)
    returns (r: seq<Line<Vector>>)
    ensures r == ClipThroughSets(lines, OccluderBoundaries(shape, clippingShapes))
    ensures |clippingShapes| == 0 ==> r == lines
  {
    r := lines;
    for i := 0 to |clippingShapes|
      invariant r == ClipAgainst(lines, shape, clippingShapes[..i])
    {
      assert clippingShapes[..i + 1][..i] == clippingShapes[..i];
      var cs := clippingShapes[i];
      if Occludes(cs, shape) {
        r := ClipEach(r, cs.boundaries);
      }
    }
    assert clippingShapes[..|clippingShapes|] == clippingShapes;
    ClipAgainstOccludersOnly(lines, shape, clippingShapes);
  }

  // ---------------------------------------------------------------------------------------------
  // clip_line_z0

  /** `v[-1]`: the depth coordinate. */
  function Last(v: Vector): real
    requires |v| > 0
  {
    v[|v| - 1]
  }

  /** `plane0_intersect`: the point of the segment at depth `z0`. */
  function Plane0Intersect(v1: Vector, v2: Vector, z0: real): (r: Vector)
    requires |v1| == |v2| > 0 && Last(v1) != Last(v2)
    ensures |r| == |v1| && Last(r) == z0
  {
    var t := (Last(v1) - z0) / (Last(v1) - Last(v2));
    LinterpAt(v1, v2, t, |v1| - 1);
    ScalarLinterpHits(Last(v1), Last(v2), z0);
    Linterp(v1, v2, t)
  }

  /**
   * `clip_line_z0` as written: None when both endpoints are at or behind depth `z0`, the line
   * when both are in front; otherwise the behind endpoint is meant to be replaced by the point at
   * depth `z0 + small_z`, but the test that picks it compares the depths with 0, not `z0`.
   */
  function ClipLineZ0AsWritten(line: Line<Vector>, z0: real, smallZ: real): Option<Line<Vector>>
    requires |line.p0| == |line.p1| > 0
  {
    var v1, v2 := line.p0, line.p1;
    if Last(v1) <= z0 && Last(v2) <= z0 then None
    else if Last(v1) > z0 && Last(v2) > z0 then Some(line)
    else
      var intersect := Plane0Intersect(v1, v2, z0 + smallZ);
      if Last(v1) < 0.0 && Last(v2) > 0.0 then Some(Line(intersect, v2)) else Some(Line(v1, intersect))
  }

  /**
   * With `z0 = 1`, a segment from depth 0.5 to depth 2 keeps its endpoint at depth 0.5, behind
   * the plane, and drops the one in front.
   */
  lemma ClipLineZ0KeepsBehindEndpoint()
    ensures var r := ClipLineZ0AsWritten(Line([0.5], [2.0]), 1.0, 0.0);
      r == Some(Line([0.5], [1.0])) && Last(r.value.p0) < 1.0
  {
    var t := (0.5 - 1.0) / (0.5 - 2.0);
    assert t == 1.0 / 3.0;
    assert Linterp([0.5], [2.0], t) == [1.0] by {
      LinterpAt([0.5], [2.0], t, 0);
    }
  }

  /** `clip_line_z0` as intended: the endpoint that is behind depth `z0` is the one replaced. */
  function ClipLineZ0(line: Line<Vector>, z0: real, smallZ: real): (r: Option<Line<Vector>>)
    requires |line.p0| == |line.p1| > 0
    ensures r.None? <==> Last(line.p0) <= z0 && Last(line.p1) <= z0
    ensures Last(line.p0) > z0 && Last(line.p1) > z0 ==> r == Some(line)
    ensures r.Some? ==> |r.value.p0| == |r.value.p1| == |line.p0|
    ensures r.Some? && smallZ >= 0.0 ==> Last(r.value.p0) >= z0 && Last(r.value.p1) >= z0
    ensures Last(line.p0) > z0 ==> r.Some? && r.value.p0 == line.p0
    ensures Last(line.p1) > z0 ==> r.Some? && r.value.p1 == line.p1
  {
    var v1, v2 := line.p0, line.p1;
    if Last(v1) <= z0 && Last(v2) <= z0 then None
    else if Last(v1) > z0 && Last(v2) > z0 then Some(line)
    else
      var intersect := Plane0Intersect(v1, v2, z0 + smallZ);
      if Last(v1) <= z0 then Some(Line(intersect, v2)) else Some(Line(v1, intersect))
  }

  // ---------------------------------------------------------------------------------------------
  // sphere_line_intersect, clip_line_sphere

  /** `v0 + t*u`. */
  function At(v0: Vector, u: Vector, t: real): Vector
  {
    Add(v0, Scale(u, t))
  }

  /** The segment has distinct endpoints, so its direction can be normalised. */
  predicate Proper(line: Line<Vector>)
  {
    |line.p0| == |line.p1| && Dot(Sub(line.p1, line.p0), Sub(line.p1, line.p0)) > 0.0
  }

  /**
   * `sphere_line_intersect`: with `u` the unit direction of the segment, the points
   * `v0 + tm*u`, `v0 + tp*u` where the infinite line meets the sphere of radius `r` about the
   * origin; None when it misses, or when both roots lie beyond the segment's length or both
   * before its start. The source divides by the length, so the segment must be proper.
   */
  function SphereLineIntersect(line: Line<Vector>, r: real, sqrt: real -> real): (res: Option<Line<Vector>>)
    requires IsSqrt(sqrt) && Proper(line)
  {
    var v0 := line.p0;
    var dv := Sub(line.p1, line.p0);
    var dvNorm := Norm(dv, sqrt);
    var u := Normalize(dv, sqrt);
    var v0rDv := Dot(v0, u);
    var discr := SphereDiscriminant(v0, u, r);
    if discr < 0.0 then None
    else
      var s := sqrt(discr);
      var tm := -v0rDv - s;
      var tp := -v0rDv + s;
      if tm > dvNorm && tp > dvNorm then None
      else if tm < 0.0 && tp < 0.0 then None
      else Some(Line(At(v0, u, tm), At(v0, u, tp)))
  }

  /**
   * The cases of `sphere_line_intersect`: None on a negative discriminant or when both roots
   * lie on the same side outside [0, |dv|]; otherwise both returned points lie on the sphere.
   */
  lemma SphereLineIntersectCases(line: Line<Vector>, r: real, sqrt: real -> real)
    requires IsSqrt(sqrt) && Proper(line)
    ensures var dv := Sub(line.p1, line.p0);
      var d := Norm(dv, sqrt);
      var u := Normalize(dv, sqrt);
      var discr := SphereDiscriminant(line.p0, u, r);
      var w := Dot(line.p0, u);
      var res := SphereLineIntersect(line, r, sqrt);
      && (discr < 0.0 ==> res.None?)
      && (discr >= 0.0 ==>
            var tm := -w - sqrt(discr);
            var tp := -w + sqrt(discr);
            (res.None? <==> (tm > d && tp > d) || (tm < 0.0 && tp < 0.0)))
      && (res.Some? ==> Dot(res.value.p0, res.value.p0) == r * r && Dot(res.value.p1, res.value.p1) == r * r)
  {
    var res := SphereLineIntersect(line, r, sqrt);
    if res.Some? {
      var dv := Sub(line.p1, line.p0);
      var u := Normalize(dv, sqrt);
      var discr := SphereDiscriminant(line.p0, u, r);
      var w := Dot(line.p0, u);
      var s := sqrt(discr);
      UnitRootOnSphere(line.p0, u, r, w, s, -1.0);
      UnitRootOnSphere(line.p0, u, r, w, s, 1.0);
    }
  }

  /** Along a unit direction, `t = -w ± s` with `s² = w² - |v0|² + r²` puts `v0 + t*u` on the sphere. */
  lemma UnitRootOnSphere(v0: Vector, u: Vector, r: real, w: real, s: real, sign: real)
    requires |v0| == |u| && Dot(u, u) == 1.0 && w == Dot(v0, u)
    requires s * s == w * w - Dot(v0, v0) + r * r
    requires sign == 1.0 || sign == -1.0
    ensures Dot(At(v0, u, -w + sign * s), At(v0, u, -w + sign * s)) == r * r
  {
    var t := -w + sign * s;
    DotOffsetSelf(v0, u, t);
    UnitRootAlgebra(Dot(v0, v0), w, s, r, sign, t);
  }

  lemma UnitRootAlgebra(vv: real, w: real, s: real, r: real, sign: real, t: real)
    requires s * s == w * w - vv + r * r
    requires sign == 1.0 || sign == -1.0
    requires t == -w + sign * s
    ensures Quadratic(vv, w, 1.0, t) == r * r
  {
    assert (t + w) * (t + w) == s * s by {
      assert t + w == sign * s;
      assert sign * sign == 1.0;
    }
    calc {
      Quadratic(vv, w, 1.0, t);
      vv + 2.0 * t * w + t * t;
      vv + (t + w) * (t + w) - w * w;
      r * r;
    }
  }

  /** `abs(x)^2 < r^2`: strictly inside the sphere. */
  predicate InSphere(v: Vector, r: real)
  {
    Dot(v, v) < r * r
  }

  /** The inputs on which `clip_line_sphere` does not divide by zero. */
  predicate SphereClipDefined(line: Line<Vector>, r: real)
  {
    |line.p0| == |line.p1| && ((InSphere(line.p0, r) && InSphere(line.p1, r)) || Proper(line))
  }

  /**
   * `clip_line_sphere`: the part of the segment inside the sphere of radius `r` about the
   * origin. A segment wholly inside is returned as it is; otherwise an outside endpoint is
   * replaced by the intersection point on its side.
   */
  function ClipLineSphere(line: Line<Vector>, r: real, sqrt: real -> real): (res: Option<Line<Vector>>)
    requires IsSqrt(sqrt) && SphereClipDefined(line, r)
    ensures InSphere(line.p0, r) && InSphere(line.p1, r) ==> res == Some(line)
    ensures res.Some? ==> Dot(res.value.p0, res.value.p0) <= r * r && Dot(res.value.p1, res.value.p1) <= r * r
    ensures res.Some? && InSphere(line.p0, r) ==> res.value.p0 == line.p0
    ensures res.Some? && InSphere(line.p1, r) ==> res.value.p1 == line.p1
    ensures res.Some? ==> |res.value.p0| == |res.value.p1| == |line.p0|
  {
    var v0, v1 := line.p0, line.p1;
    var v0In, v1In := InSphere(v0, r), InSphere(v1, r);
    if v0In && v1In then Some(line)
    else
      match SphereLineIntersect(line, r, sqrt)
      case None => None
      case Some(intersect) =>
        SphereLineIntersectCases(line, r, sqrt);
        if !v0In && !v1In then Some(intersect)
        else if !v0In && v1In then Some(Line(intersect.p0, v1))
        else Some(Line(v0, intersect.p1))
  }

  // ---------------------------------------------------------------------------------------------
  // clip_line_cylinder

  /** `drop_index`: `v` without component `i`. */
  function DropIndex(v: Vector, i: nat): (r: Vector)
    requires i < |v|
    ensures |r| == |v| - 1
  {
    v[..i] + v[i + 1..]
  }

  /** `insert_index` (`np.insert`): `x` placed at component `i`. */
  function InsertIndex(v: Vector, i: nat, x: real): (r: Vector)
    requires i <= |v|
    ensures |r| == |v| + 1 && r[i] == x
  {
    v[..i] + [x] + v[i..]
  }

  /** Putting a dropped component back restores the vector, and dropping an inserted one undoes the insert. */
  lemma InsertDropIndex(v: Vector, i: nat, w: Vector, x: real)
    requires i < |v| && i <= |w|
    ensures InsertIndex(DropIndex(v, i), i, v[i]) == v
    ensures DropIndex(InsertIndex(w, i, x), i) == w
  {
    assert DropIndex(v, i)[..i] == v[..i];
    assert DropIndex(v, i)[i..] == v[i + 1..];
    assert InsertIndex(w, i, x)[..i] == w[..i];
    assert InsertIndex(w, i, x)[i + 1..] == w[i..];
  }

  /** `math.copysign(x, y)`: the magnitude of `x` with the sign of `y` (no negative zero here). */
  function CopySign(x: real, y: real): (r: real)
    ensures Abs(r) == Abs(x) && (y < 0.0 ==> r <= 0.0) && (y >= 0.0 ==> r >= 0.0)
  {
    if y < 0.0 then -Abs(x) else Abs(x)
  }

  /** Both axis components above `h`, or both below `-h`. */
  predicate OutsideSlab(a0: real, a1: real, h: real)
  {
    (a0 > h && a1 > h) || (a0 < -h && a1 < -h)
  }

  /** The perpendicular part of a line, with the axis component dropped. */
  function Perpendicular(line: Line<Vector>, axis: nat): Line<Vector>
    requires axis < |line.p0| && axis < |line.p1|
  {
    Line(DropIndex(line.p0, axis), DropIndex(line.p1, axis))
  }

  /** The inputs on which `clip_line_cylinder` does not divide by zero. */
  predicate CylinderClipDefined(line: Line<Vector>, r: real, h: real, axis: nat)
  {
    && axis < |line.p0| == |line.p1|
    && (OutsideSlab(line.p0[axis], line.p1[axis], h) || SphereClipDefined(Perpendicular(line, axis), r))
  }

  /**
   * `clip_line_cylinder`: the segment clipped to the cylinder of radius `r` about `axis` and
   * half-height `h`. None when both endpoints lie beyond the same cap or the perpendicular part
   * misses the tube; otherwise the perpendicular part is clipped as by a sphere of radius `r`
   * and an axis component outside the slab is set to `±h`, the first endpoint's first. The axis
   * components are not moved with the perpendicular clip.
   */
  function ClipLineCylinder(line: Line<Vector>, r: real, h: real, axis: nat, sqrt: real -> real)
    : (res: Option<Line<Vector>>)
    requires IsSqrt(sqrt) && CylinderClipDefined(line, r, h, axis)
    ensures OutsideSlab(line.p0[axis], line.p1[axis], h) ==> res.None?
  {
    var v0, v1 := line.p0, line.p1;
    var a0, a1 := v0[axis], v1[axis];
    var u0, u1 := DropIndex(v0, axis), DropIndex(v1, axis);
    if OutsideSlab(a0, a1, h) then None
    else
      match ClipLineSphere(Line(u0, u1), r, sqrt)
      case None => None
      case Some(tubeClipped) =>
        var cu0, cu1 := tubeClipped.p0, tubeClipped.p1;
        var a0Inside, a1Inside := Abs(a0) < h, Abs(a1) < h;
        if a0Inside && a1Inside then Some(Line(InsertIndex(cu0, axis, a0), InsertIndex(cu1, axis, a1)))
        else if a0Inside && !a1Inside then Some(Line(InsertIndex(cu0, axis, a0), InsertIndex(cu1, axis, CopySign(h, a1))))
        else Some(Line(InsertIndex(cu0, axis, CopySign(h, a0)), InsertIndex(cu1, axis, a1)))
  }

  /** A segment wholly inside the cylinder comes back unchanged. */
  lemma ClipLineCylinderInside(line: Line<Vector>, r: real, h: real, axis: nat, sqrt: real -> real)
    requires IsSqrt(sqrt) && CylinderClipDefined(line, r, h, axis)
    requires Abs(line.p0[axis]) < h && Abs(line.p1[axis]) < h
    requires InSphere(Perpendicular(line, axis).p0, r) && InSphere(Perpendicular(line, axis).p1, r)
    ensures ClipLineCylinder(line, r, h, axis, sqrt) == Some(line)
  {
    var perp := Perpendicular(line, axis);
    assert ClipLineSphere(perp, r, sqrt) == Some(perp);
    InsertDropIndex(line.p0, axis, perp.p0, line.p0[axis]);
    InsertDropIndex(line.p1, axis, perp.p1, line.p1[axis]);
  }

  /**
   * The result of `clip_line_cylinder` lies in the closed tube of radius `r`, and unless both
   * endpoints are outside the slab its axis components lie within [-h, h].
   */
  lemma ClipLineCylinderBounds(line: Line<Vector>, r: real, h: real, axis: nat, sqrt: real -> real)
    requires IsSqrt(sqrt) && CylinderClipDefined(line, r, h, axis)
    requires ClipLineCylinder(line, r, h, axis, sqrt).Some?
    ensures var res := ClipLineCylinder(line, r, h, axis, sqrt).value;
      && |res.p0| == |res.p1| == |line.p0|
      && Dot(DropIndex(res.p0, axis), DropIndex(res.p0, axis)) <= r * r
      && Dot(DropIndex(res.p1, axis), DropIndex(res.p1, axis)) <= r * r
      && (Abs(line.p0[axis]) < h || Abs(line.p1[axis]) < h ==>
            -h <= res.p0[axis] <= h && -h <= res.p1[axis] <= h)
  {
    var a0, a1 := line.p0[axis], line.p1[axis];
    var t := ClipLineSphere(Perpendicular(line, axis), r, sqrt).value;
    var q0 := if Abs(a0) < h then a0 else CopySign(h, a0);
    var q1 := if Abs(a0) < h && Abs(a1) >= h then CopySign(h, a1) else a1;
    var res := ClipLineCylinder(line, r, h, axis, sqrt).value;
    assert res == Line(InsertIndex(t.p0, axis, q0), InsertIndex(t.p1, axis, q1));
    InsertDropIndex(line.p0, axis, t.p0, q0);
    InsertDropIndex(line.p1, axis, t.p1, q1);
  }
}
