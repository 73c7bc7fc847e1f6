/**
 * The boundary planes of a shape as seen from the camera (`src/draw/clipping/boundaries.rs`).
 * A point is hidden by the shape when it lies on the inner side of every boundary plane. The
 * planes are: for each sub-face between a visible and an invisible face, the plane through the
 * camera that pivots about their common sub-face; for each boundary sub-face of a visible
 * single face, the plane through the camera and that sub-face; and the plane of every visible
 * face, listed after all sub-face planes.
 */
module Boundaries {
  import opened Wrappers
  import opened Vectors
  import opened Geometry
  import opened Faces

  /**
   * `SubFace`: a sub-face shared by two faces of a convex shape, or a boundary sub-face of a
   * single face, listed by its vertex indices.
   */
  datatype SubFace = Convex(facei0: nat, facei1: nat) | Boundary(facei: nat, vertis: seq<nat>)

  // ---------------------------------------------------------------------------------------------
  // calc_convex_boundary

  /**
   * `calc_convex_boundary`: the plane interpolated between two face planes at the parameter
   * where the interpolated signed distance of the camera vanishes. The camera's signed
   * distances from the two faces must differ (the source expects them of opposite signs).
   */
  function CalcConvexBoundary(face1: Plane, face2: Plane, origin: Vector): Plane
    requires PointSignedDistance(face1, origin) != PointSignedDistance(face2, origin)
  {
    var k1 := Dot(face1.normal, origin) - face1.threshold;
    var k2 := Dot(face2.normal, origin) - face2.threshold;
    var t := k1 / (k1 - k2);
    Plane(Linterp(face1.normal, face2.normal, t), ScalarLinterp(face1.threshold, face2.threshold, t))
  }

  /** The signed distance from an interpolated plane interpolates the two signed distances. */
  lemma InterpolatedPlaneDistance(face1: Plane, face2: Plane, t: real, q: Vector)
    requires |face1.normal| == |face2.normal| == |q|
    ensures PointSignedDistance(Plane(Linterp(face1.normal, face2.normal, t),
                                      ScalarLinterp(face1.threshold, face2.threshold, t)), q)
      == ScalarLinterp(PointSignedDistance(face1, q), PointSignedDistance(face2, q), t)
  {
    DotLinterp(face1.normal, face2.normal, q, t);
    DotSymmetric(Linterp(face1.normal, face2.normal, t), q);
    DotSymmetric(face1.normal, q);
    DotSymmetric(face2.normal, q);
    ScalarLinterpSub(Dot(face1.normal, q), Dot(face2.normal, q), face1.threshold, face2.threshold, t);
  }

  lemma ScalarLinterpSub(a: real, b: real, c: real, d: real, t: real)
    ensures ScalarLinterp(a, b, t) - ScalarLinterp(c, d, t) == ScalarLinterp(a - c, b - d, t)
  {
  }

  /**
   * The convex boundary passes through the camera, and it contains every point that lies on
   * both face planes (the sub-face the two faces share).
   */
  lemma ConvexBoundaryPivot(face1: Plane, face2: Plane, origin: Vector, q: Vector)
    requires |face1.normal| == |face2.normal| == |origin| == |q|
    requires PointSignedDistance(face1, origin) != PointSignedDistance(face2, origin)
    ensures PointSignedDistance(CalcConvexBoundary(face1, face2, origin), origin) == 0.0
    ensures PointSignedDistance(face1, q) == 0.0 && PointSignedDistance(face2, q) == 0.0
      ==> PointSignedDistance(CalcConvexBoundary(face1, face2, origin), q) == 0.0
  {
    var k1 := PointSignedDistance(face1, origin);
    var k2 := PointSignedDistance(face2, origin);
    var t := k1 / (k1 - k2);
    InterpolatedPlaneDistance(face1, face2, t, origin);
    InterpolatedPlaneDistance(face1, face2, t, q);
    ScalarLinterpHits(k1, k2, 0.0);
    assert (k1 - 0.0) / (k1 - k2) == t;
  }

  // ---------------------------------------------------------------------------------------------
  // calc_single_face_boundary

  /**
   * The edge vectors from the camera to the first `DIM - 1` vertices of the sub-face, the
   * arguments of the source's generalised cross product.
   */
  function CrossArguments(subfaceVertis: seq<nat>, origin: Vector, verts: seq<Vector>): (r: seq<Vector>)
    requires forall k :: 0 <= k < |subfaceVertis| ==> subfaceVertis[k] < |verts|
  {
    var n := if |origin| == 0 then 0 else Min(|origin| - 1, |subfaceVertis|);
    seq(n, k requires 0 <= k < n => Sub(verts[subfaceVertis[k]], origin))
  }

  /**
   * `calc_single_face_boundary`: the normalised cross product of the edge vectors, turned away
   * from the face centre, through the camera. `crossNormal` stands for the source's
   * `cross_product(..).normalize()`.
   */
  function CalcSingleFaceBoundary(subfaceVertis: seq<nat>, origin: Vector, verts: seq<Vector>,
                                  faceCenter: Vector, crossNormal: seq<Vector> -> Vector): Plane
    requires forall k :: 0 <= k < |subfaceVertis| ==> subfaceVertis[k] < |verts|
  {
    var n0 := crossNormal(CrossArguments(subfaceVertis, origin, verts));
    var n := if Dot(n0, Sub(faceCenter, origin)) > 0.0 then Neg(n0) else n0;
    Plane(n, Dot(n, origin))
  }

  /**
   * A single-face boundary is the cross-product normal up to sign, passes through the camera,
   * and has the face centre on its inner (non-positive) side.
   */
  lemma SingleFaceBoundaryProperties(subfaceVertis: seq<nat>, origin: Vector, verts: seq<Vector>,
                                     faceCenter: Vector, crossNormal: seq<Vector> -> Vector)
    requires forall k :: 0 <= k < |subfaceVertis| ==> subfaceVertis[k] < |verts|
    requires |crossNormal(CrossArguments(subfaceVertis, origin, verts))| == |origin| == |faceCenter|
    ensures var p := CalcSingleFaceBoundary(subfaceVertis, origin, verts, faceCenter, crossNormal);
      var n0 := crossNormal(CrossArguments(subfaceVertis, origin, verts));
      && (p.normal == n0 || p.normal == Neg(n0))
      && PointSignedDistance(p, origin) == 0.0
      && PointSignedDistance(p, faceCenter) <= 0.0
  {
    var p := CalcSingleFaceBoundary(subfaceVertis, origin, verts, faceCenter, crossNormal);
    var n0 := crossNormal(CrossArguments(subfaceVertis, origin, verts));
    var dc := Sub(faceCenter, origin);
    DotNeg(n0, dc);
    FromNormalAndPointDistance(p.normal, origin, faceCenter);
  }

  /** The single-face test: with the camera at the origin every such boundary has threshold 0. */
  lemma SingleFaceBoundaryAtZero(subfaceVertis: seq<nat>, verts: seq<Vector>, faceCenter: Vector,
                                 crossNormal: seq<Vector> -> Vector, dim: nat)
    requires forall k :: 0 <= k < |subfaceVertis| ==> subfaceVertis[k] < |verts|
    ensures CalcSingleFaceBoundary(subfaceVertis, Zero(dim), verts, faceCenter, crossNormal).threshold == 0.0
  {
    var p := CalcSingleFaceBoundary(subfaceVertis, Zero(dim), verts, faceCenter, crossNormal);
    DotZero(dim, p.normal);
    DotSymmetric(Zero(dim), p.normal);
  }

  // ---------------------------------------------------------------------------------------------
  // face boundaries

  /**
   * The boundary a visible face contributes: its plane, with the normal flipped towards the
   * camera when the face is two-sided and seen from behind.
   */
  function FaceBoundary(face: Face, cameraPos: Vector): Plane
  {
    var normal := NormalOf(face);
    var flip := face.twoSided && Dot(normal, Sub(cameraPos, CenterOf(face))) < 0.0;
    FromNormalAndPoint(if flip then Neg(normal) else normal, CenterOf(face))
  }

  /** A face whose stored plane is the one through its centre, as `Face::new` builds it. */
  predicate WellFormedFace(face: Face)
  {
    PlaneOf(face) == FromNormalAndPoint(NormalOf(face), CenterOf(face))
  }

  /**
   * A one-sided face contributes its own plane; a two-sided face contributes a plane through its
   * centre with the camera on the non-negative side, flipping only when the camera is behind it.
   */
  lemma FaceBoundaryOrientation(face: Face, cameraPos: Vector)
    requires |NormalOf(face)| == |CenterOf(face)| == |cameraPos|
    ensures WellFormedFace(face) && !face.twoSided ==> FaceBoundary(face, cameraPos) == PlaneOf(face)
    ensures face.twoSided ==> PointSignedDistance(FaceBoundary(face, cameraPos), cameraPos) >= 0.0
    ensures PointSignedDistance(FaceBoundary(face, cameraPos), CenterOf(face)) == 0.0
    ensures FaceBoundary(face, cameraPos).normal == NormalOf(face)
      || FaceBoundary(face, cameraPos).normal == Neg(NormalOf(face))
  {
    var normal := NormalOf(face);
    var d := Sub(cameraPos, CenterOf(face));
    var p := FaceBoundary(face, cameraPos);
    FromNormalAndPointDistance(p.normal, CenterOf(face), cameraPos);
    DotNeg(normal, d);
  }

  // ---------------------------------------------------------------------------------------------
  // calc_boundaries

  /** A sub-face refers to faces, visibility flags and vertices that exist. */
  predicate SubfaceValid(sf: SubFace, nFaces: nat, nVis: nat, nVerts: nat)
  {
    match sf
    case Convex(i0, i1) => i0 < nFaces && i1 < nFaces && i0 < nVis && i1 < nVis
    case Boundary(i, vertis) => i < nFaces && i < nVis && forall j :: 0 <= j < |vertis| ==> vertis[j] < nVerts
  }

  predicate SubfacesValid(subfaces: seq<SubFace>, nFaces: nat, nVis: nat, nVerts: nat)
  {
    forall k :: 0 <= k < |subfaces| ==> SubfaceValid(subfaces[k], nFaces, nVis, nVerts)
  }

  /**
   * For a convex sub-face between a visible and an invisible face, the camera's signed distances
   * from the two faces differ, so `calc_convex_boundary` is defined there.
   */
  predicate ConvexBoundaryDefined(sf: SubFace, faces: seq<Face>, vis: seq<bool>, cameraPos: Vector)
  {
    (sf.Convex? && sf.facei0 < |faces| && sf.facei1 < |faces| && sf.facei0 < |vis| && sf.facei1 < |vis|
     && vis[sf.facei0] != vis[sf.facei1])
    ==> PointSignedDistance(PlaneOf(faces[sf.facei0]), cameraPos)
          != PointSignedDistance(PlaneOf(faces[sf.facei1]), cameraPos)
  }

  predicate ConvexBoundariesDefined(subfaces: seq<SubFace>, faces: seq<Face>, vis: seq<bool>, cameraPos: Vector)
  {
    forall k :: 0 <= k < |subfaces| ==> ConvexBoundaryDefined(subfaces[k], faces, vis, cameraPos)
  }

  /** The boundary a sub-face contributes, if any. */
  function SubfaceBoundary(sf: SubFace, faces: seq<Face>, vis: seq<bool>, verts: seq<Vector>,
                           cameraPos: Vector, crossNormal: seq<Vector> -> Vector): Option<Plane>
    requires SubfaceValid(sf, |faces|, |vis|, |verts|)
    requires ConvexBoundaryDefined(sf, faces, vis, cameraPos)
  {
    match sf
    case Convex(i0, i1) =>
      if vis[i0] != vis[i1] then
        Some(CalcConvexBoundary(PlaneOf(faces[i0]), PlaneOf(faces[i1]), cameraPos))
      else None
    case Boundary(i, vertis) =>
      if vis[i] then Some(CalcSingleFaceBoundary(vertis, cameraPos, verts, CenterOf(faces[i]), crossNormal))
      else None
  }

  /** The `filter_map` over the sub-faces. */
  function SubfaceBoundaries(subfaces: seq<SubFace>, faces: seq<Face>, vis: seq<bool>, verts: seq<Vector>,
                             cameraPos: Vector, crossNormal: seq<Vector> -> Vector): seq<Plane>
    requires SubfacesValid(subfaces, |faces|, |vis|, |verts|)
    requires ConvexBoundariesDefined(subfaces, faces, vis, cameraPos)
  {
    if |subfaces| == 0 then []
    else
      SubfaceBoundaries(subfaces[..|subfaces| - 1], faces, vis, verts, cameraPos, crossNormal)
      + match SubfaceBoundary(subfaces[|subfaces| - 1], faces, vis, verts, cameraPos, crossNormal)
        case Some(p) => [p]
        case None => []
  }

  /** The `filter_map` over the visible faces, `faces` zipped with `vis` up to index `m`. */
  function FaceBoundaries(faces: seq<Face>, vis: seq<bool>, cameraPos: Vector, m: nat): seq<Plane>
    requires m <= |faces| && m <= |vis|
  {
    if m == 0 then []
    else FaceBoundaries(faces, vis, cameraPos, m - 1) + (if vis[m - 1] then [FaceBoundary(faces[m - 1], cameraPos)] else [])
  }

  /** The number of set flags. */
  function CountTrue(vis: seq<bool>): nat
  {
    if |vis| == 0 then 0 else CountTrue(vis[..|vis| - 1]) + (if vis[|vis| - 1] then 1 else 0)
  }

  /**
   * `calc_boundaries`: the sub-face boundaries followed by the face boundaries (`chain`).
   */
  function CalcBoundaries(cameraPos: Vector, faces: seq<Face>, subfaces: seq<SubFace>, verts: seq<Vector>,
                          vis: seq<bool>, crossNormal: seq<Vector> -> Vector): seq<Plane>
    requires SubfacesValid(subfaces, |faces|, |vis|, |verts|)
    requires ConvexBoundariesDefined(subfaces, faces, vis, cameraPos)
  {
    SubfaceBoundaries(subfaces, faces, vis, verts, cameraPos, crossNormal)
      + FaceBoundaries(faces, vis, cameraPos, Min(|faces|, |vis|))
  }

  /**
   * When a face is visible exactly when the camera is strictly on the positive side of its plane
   * (how the drawing code sets the flags), every convex boundary is defined.
   */
  lemma VisibilityFromCamera(subfaces: seq<SubFace>, faces: seq<Face>, vis: seq<bool>, cameraPos: Vector)
    requires |vis| == |faces|
    requires forall i :: 0 <= i < |faces| ==> (vis[i] <==> PointSignedDistance(PlaneOf(faces[i]), cameraPos) > 0.0)
    ensures ConvexBoundariesDefined(subfaces, faces, vis, cameraPos)
  {
  }

  /**
   * Which sub-faces contribute: a convex sub-face exactly when its two faces differ in
   * visibility, a boundary sub-face exactly when its face is visible.
   */
  lemma SubfaceContributes(sf: SubFace, faces: seq<Face>, vis: seq<bool>, verts: seq<Vector>,
                           cameraPos: Vector, crossNormal: seq<Vector> -> Vector)
    requires SubfaceValid(sf, |faces|, |vis|, |verts|)
    requires ConvexBoundaryDefined(sf, faces, vis, cameraPos)
    ensures sf.Convex? ==>
      (SubfaceBoundary(sf, faces, vis, verts, cameraPos, crossNormal).Some? <==> vis[sf.facei0] != vis[sf.facei1])
    ensures sf.Boundary? ==>
      (SubfaceBoundary(sf, faces, vis, verts, cameraPos, crossNormal).Some? <==> vis[sf.facei])
  {
  }

  /** All faces and normals live in the camera's dimension. */
  predicate FacesInDimension(faces: seq<Face>, dim: nat)
  {
    forall i :: 0 <= i < |faces| ==> |NormalOf(faces[i])| == dim && |CenterOf(faces[i])| == dim
  }

  /** A contributed sub-face boundary passes through the camera. */
  lemma SubfaceBoundaryThroughCamera(sf: SubFace, faces: seq<Face>, vis: seq<bool>, verts: seq<Vector>,
                                     cameraPos: Vector, crossNormal: seq<Vector> -> Vector)
    requires SubfaceValid(sf, |faces|, |vis|, |verts|)
    requires ConvexBoundaryDefined(sf, faces, vis, cameraPos)
    requires FacesInDimension(faces, |cameraPos|)
    ensures var b := SubfaceBoundary(sf, faces, vis, verts, cameraPos, crossNormal);
      b.Some? ==> PointSignedDistance(b.value, cameraPos) == 0.0
  {
    if sf.Convex? && vis[sf.facei0] != vis[sf.facei1] {
      ConvexBoundaryPivot(PlaneOf(faces[sf.facei0]), PlaneOf(faces[sf.facei1]), cameraPos, cameraPos);
    }
  }

  /** Every plane in `bs` passes through `point`. */
  predicate AllThrough(bs: seq<Plane>, point: Vector)
  {
    forall k :: 0 <= k < |bs| ==> PointSignedDistance(bs[k], point) == 0.0
  }

  /** Every sub-face boundary passes through the camera. */
  lemma {:induction false} SubfaceBoundariesThroughCamera(subfaces: seq<SubFace>, faces: seq<Face>, vis: seq<bool>,
                                                          verts: seq<Vector>, cameraPos: Vector,
                                                          crossNormal: seq<Vector> -> Vector)
    requires SubfacesValid(subfaces, |faces|, |vis|, |verts|)
    requires ConvexBoundariesDefined(subfaces, faces, vis, cameraPos)
    requires FacesInDimension(faces, |cameraPos|)
    ensures AllThrough(SubfaceBoundaries(subfaces, faces, vis, verts, cameraPos, crossNormal), cameraPos)
  {
    if |subfaces| > 0 {
      var init := subfaces[..|subfaces| - 1];
      var sf := subfaces[|subfaces| - 1];
      SubfaceBoundariesThroughCamera(init, faces, vis, verts, cameraPos, crossNormal);
      SubfaceBoundaryThroughCamera(sf, faces, vis, verts, cameraPos, crossNormal);
      var bs := SubfaceBoundaries(subfaces, faces, vis, verts, cameraPos, crossNormal);
      var prev := SubfaceBoundaries(init, faces, vis, verts, cameraPos, crossNormal);
      var b := SubfaceBoundary(sf, faces, vis, verts, cameraPos, crossNormal);
      assert bs == prev + (if b.Some? then [b.value] else []);
      forall k | 0 <= k < |bs| ensures PointSignedDistance(bs[k], cameraPos) == 0.0 {
        if k < |prev| {
          assert bs[k] == prev[k];
        } else {
          assert bs[k] == b.value;
        }
      }
    }
  }

  /**
   * Each visible face contributes exactly one plane, in face order: the boundary of visible face
   * `i` sits at the position given by the number of visible faces before it, and there are as
   * many face boundaries as visible faces.
   */
  lemma {:induction false} FaceBoundariesPositions(faces: seq<Face>, vis: seq<bool>, cameraPos: Vector, m: nat)
    requires m <= |faces| && m <= |vis|
    ensures |FaceBoundaries(faces, vis, cameraPos, m)| == CountTrue(vis[..m])
    ensures forall i :: 0 <= i < m && vis[i] ==>
      CountTrue(vis[..i]) < |FaceBoundaries(faces, vis, cameraPos, m)|
      && FaceBoundaries(faces, vis, cameraPos, m)[CountTrue(vis[..i])] == FaceBoundary(faces[i], cameraPos)
  {
    if m > 0 {
      FaceBoundariesPositions(faces, vis, cameraPos, m - 1);
      assert vis[..m][..m - 1] == vis[..m - 1];
      var prev := FaceBoundaries(faces, vis, cameraPos, m - 1);
      var cur := FaceBoundaries(faces, vis, cameraPos, m);
      forall i | 0 <= i < m && vis[i]
        ensures CountTrue(vis[..i]) < |cur| && cur[CountTrue(vis[..i])] == FaceBoundary(faces[i], cameraPos)
      {
        if i < m - 1 {
          assert cur[CountTrue(vis[..i])] == prev[CountTrue(vis[..i])];
        }
      }
    }
  }

  /**
   * The layout of `calc_boundaries`: the sub-face planes first, then exactly one plane per
   * visible face, in face order.
   */
  lemma CalcBoundariesLayout(cameraPos: Vector, faces: seq<Face>, subfaces: seq<SubFace>, verts: seq<Vector>,
                             vis: seq<bool>, crossNormal: seq<Vector> -> Vector)
    requires SubfacesValid(subfaces, |faces|, |vis|, |verts|)
    requires ConvexBoundariesDefined(subfaces, faces, vis, cameraPos)
    ensures var bs := CalcBoundaries(cameraPos, faces, subfaces, verts, vis, crossNormal);
      var ns := |SubfaceBoundaries(subfaces, faces, vis, verts, cameraPos, crossNormal)|;
      var m := Min(|faces|, |vis|);
      && |bs| == ns + CountTrue(vis[..m])
      && bs[..ns] == SubfaceBoundaries(subfaces, faces, vis, verts, cameraPos, crossNormal)
      && forall i :: 0 <= i < m && vis[i] ==>
           ns + CountTrue(vis[..i]) < |bs| && bs[ns + CountTrue(vis[..i])] == FaceBoundary(faces[i], cameraPos)
  {
    FaceBoundariesPositions(faces, vis, cameraPos, Min(|faces|, |vis|));
  }
}
