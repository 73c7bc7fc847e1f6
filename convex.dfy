/**
 * Convex shapes (`src/geometry/shape/convex.rs`): which pairs of faces meet in a sub-face, the
 * boundary planes of a convex shape seen from the camera, and the point-inside test.
 */
module ConvexShapes {
  import opened Wrappers
  import opened Vectors
  import opened Geometry
  import opened Itertools
  import opened Faces
  import Boundaries

  /** `SubFace { faceis }`: the indices of two faces that meet; the first index is the larger. */
  datatype SubFace = SubFace(facei0: nat, facei1: nat)

  // ---------------------------------------------------------------------------------------------
  // count_common_verts, count_common_edges

  /** The set of items listed. */
  function Elems(s: seq<nat>): set<nat>
  {
    set x | x in s
  }

  /**
   * `count_common_verts` / `count_common_edges`: the combined length of the two lists less the
   * number of distinct items in their concatenation.
   */
  function CountCommon(a: seq<nat>, b: seq<nat>): nat
  {
    assert |Unique(a + b)| <= |a + b|;
    |a| + |b| - |Unique(a + b)|
  }

  /** A duplicate-free list has as many items as distinct items. */
  lemma {:induction false} NoDuplicatesCard(s: seq<nat>)
    requires NoDuplicates(s)
    ensures |Elems(s)| == |s|
  {
    if |s| > 0 {
      var init := s[..|s| - 1];
      assert NoDuplicates(init);
      NoDuplicatesCard(init);
      assert Elems(s) == Elems(init) + {s[|s| - 1]};
      assert s[|s| - 1] !in Elems(init);
    }
  }

  /** For duplicate-free lists the common count is the number of items the two share. */
  lemma CountCommonIsIntersection(a: seq<nat>, b: seq<nat>)
    requires NoDuplicates(a) && NoDuplicates(b)
    ensures CountCommon(a, b) == |Elems(a) * Elems(b)|
  {
    var u := Unique(a + b);
    assert Elems(u) == Elems(a) + Elems(b);
    NoDuplicatesCard(u);
    NoDuplicatesCard(a);
    NoDuplicatesCard(b);
  }

  // ---------------------------------------------------------------------------------------------
  // Subfaces::calc_subfaces

  /**
   * Two faces meet in a sub-face: in 2D when they share a vertex, in 3D when they share an edge,
   * in 4D when they share at least two edges.
   */
  predicate Adjacent(f1: Face, f2: Face, dim: nat)
  {
    if dim == 2 then CountCommon(f1.vertis, f2.vertis) >= 1
    else CountCommon(f1.edgeis, f2.edgeis) >= (if dim == 3 then 1 else 2)
  }

  /** The pairs `(i, j)` with `j < jEnd` emitted by the inner loop for face `i`. */
  function RowPairs(faces: seq<Face>, dim: nat, i: nat, jEnd: nat): seq<SubFace>
    requires i < |faces| && jEnd <= i
  {
    if jEnd == 0 then []
    else
      var next := if Adjacent(faces[i], faces[jEnd - 1], dim) then [SubFace(i, jEnd - 1)] else [];
      RowPairs(faces, dim, i, jEnd - 1) + next
  }

  /** The pairs emitted by the outer loop for the faces below `iEnd`. */
  function PairsBelow(faces: seq<Face>, dim: nat, iEnd: nat): seq<SubFace>
    requires iEnd <= |faces|
  {
    if iEnd == 0 then []
    else PairsBelow(faces, dim, iEnd - 1) + RowPairs(faces, dim, iEnd - 1, iEnd - 1)
  }

  /** The sub-faces of a shape: every adjacent pair, in loop order. */
  function SubfacesOf(faces: seq<Face>, dim: nat): seq<SubFace>
  {
    PairsBelow(faces, dim, |faces|)
  }

  /**
   * `Subfaces::calc_subfaces`: for every `j < i`, emit `(i, j)` when the faces are adjacent.
   * Dimensions other than 2, 3 and 4 are refused (the source panics).
   */
  method CalcSubfaces(faces: seq<Face>, dim: nat) returns (r: Option<seq<SubFace>>)
    ensures 2 <= dim <= 4 ==> r == Some(SubfacesOf(faces, dim))
    ensures !(2 <= dim <= 4) ==> r == None
  {
    if !(2 <= dim <= 4) {
      return None;
    }
    var subfaces: seq<SubFace> := [];
    for i := 0 to |faces|
      invariant subfaces == PairsBelow(faces, dim, i)
    {
      for j := 0 to i
        invariant subfaces == PairsBelow(faces, dim, i) + RowPairs(faces, dim, i, j)
      {
        var common := if dim == 2 then CountCommon(faces[i].vertis, faces[j].vertis)
                      else CountCommon(faces[i].edgeis, faces[j].edgeis);
        var target := if dim == 4 then 2 else 1;
        if common >= target {
          subfaces := subfaces + [SubFace(i, j)];
        }
      }
    }
    return Some(subfaces);
  }

  lemma {:induction false} RowPairsMembers(faces: seq<Face>, dim: nat, i: nat, jEnd: nat, sf: SubFace)
    requires i < |faces| && jEnd <= i
    ensures sf in RowPairs(faces, dim, i, jEnd) <==>
      sf.facei0 == i && sf.facei1 < jEnd && Adjacent(faces[i], faces[sf.facei1], dim)
  {
    if jEnd > 0 {
      RowPairsMembers(faces, dim, i, jEnd - 1, sf);
    }
  }

  lemma {:induction false} PairsBelowMembers(faces: seq<Face>, dim: nat, iEnd: nat, sf: SubFace)
    requires iEnd <= |faces|
    ensures sf in PairsBelow(faces, dim, iEnd) <==>
      sf.facei1 < sf.facei0 < iEnd && Adjacent(faces[sf.facei0], faces[sf.facei1], dim)
  {
    if iEnd > 0 {
      PairsBelowMembers(faces, dim, iEnd - 1, sf);
      RowPairsMembers(faces, dim, iEnd - 1, iEnd - 1, sf);
    }
  }

  /** Exactly the adjacent pairs `(i, j)` with `j < i` are sub-faces. */
  lemma SubfacesMembers(faces: seq<Face>, dim: nat, sf: SubFace)
    ensures sf in SubfacesOf(faces, dim) <==>
      sf.facei1 < sf.facei0 < |faces| && Adjacent(faces[sf.facei0], faces[sf.facei1], dim)
  {
    PairsBelowMembers(faces, dim, |faces|, sf);
  }

  lemma NoDuplicatesConcat(a: seq<SubFace>, b: seq<SubFace>)
    requires NoDuplicates(a) && NoDuplicates(b)
    requires forall k :: 0 <= k < |a| ==> a[k] !in b
    ensures NoDuplicates(a + b)
  {
    forall i, j | 0 <= i < j < |a + b|
      ensures (a + b)[i] != (a + b)[j]
    {
      if i < |a| && j >= |a| {
        assert (a + b)[i] == a[i] && (a + b)[j] == b[j - |a|];
      }
    }
  }

  lemma {:induction false} RowPairsNoDuplicates(faces: seq<Face>, dim: nat, i: nat, jEnd: nat)
    requires i < |faces| && jEnd <= i
    ensures NoDuplicates(RowPairs(faces, dim, i, jEnd))
  {
    if jEnd > 0 {
      RowPairsNoDuplicates(faces, dim, i, jEnd - 1);
      RowPairsMembers(faces, dim, i, jEnd - 1, SubFace(i, jEnd - 1));
      NoDuplicatesConcat(RowPairs(faces, dim, i, jEnd - 1),
        if Adjacent(faces[i], faces[jEnd - 1], dim) then [SubFace(i, jEnd - 1)] else []);
    }
  }

  lemma {:induction false} PairsBelowNoDuplicates(faces: seq<Face>, dim: nat, iEnd: nat)
    requires iEnd <= |faces|
    ensures NoDuplicates(PairsBelow(faces, dim, iEnd))
  {
    if iEnd > 0 {
      PairsBelowNoDuplicates(faces, dim, iEnd - 1);
      RowPairsNoDuplicates(faces, dim, iEnd - 1, iEnd - 1);
      var a := PairsBelow(faces, dim, iEnd - 1);
      forall k | 0 <= k < |a|
        ensures a[k] !in RowPairs(faces, dim, iEnd - 1, iEnd - 1)
      {
        PairsBelowRows(faces, dim, iEnd - 1, a[k]);
        RowPairsRow(faces, dim, iEnd - 1, iEnd - 1, a[k]);
      }
      NoDuplicatesConcat(PairsBelow(faces, dim, iEnd - 1), RowPairs(faces, dim, iEnd - 1, iEnd - 1));
    }
  }

  /** Every pair of one row starts at that row's face. */
  lemma RowPairsRow(faces: seq<Face>, dim: nat, i: nat, jEnd: nat, sf: SubFace)
    requires i < |faces| && jEnd <= i
    ensures sf in RowPairs(faces, dim, i, jEnd) ==> sf.facei0 == i
  {
    RowPairsMembers(faces, dim, i, jEnd, sf);
  }

  /** Every pair emitted below `iEnd` starts at a face below `iEnd`. */
  lemma PairsBelowRows(faces: seq<Face>, dim: nat, iEnd: nat, sf: SubFace)
    requires iEnd <= |faces|
    ensures sf in PairsBelow(faces, dim, iEnd) ==> sf.facei0 < iEnd
  {
    PairsBelowMembers(faces, dim, iEnd, sf);
  }

  /** Each pair of faces is emitted at most once. */
  lemma SubfacesNoDuplicates(faces: seq<Face>, dim: nat)
    ensures NoDuplicates(SubfacesOf(faces, dim))
  {
    PairsBelowNoDuplicates(faces, dim, |faces|);
  }

  // ---------------------------------------------------------------------------------------------
  // Convex::calc_boundaries

  /** Every sub-face refers to faces that exist and have a visibility flag. */
  predicate PairsValid(subfaces: seq<SubFace>, nFaces: nat, nVis: nat)
  {
    forall k :: 0 <= k < |subfaces| ==>
      subfaces[k].facei0 < nFaces && subfaces[k].facei1 < nFaces
      && subfaces[k].facei0 < nVis && subfaces[k].facei1 < nVis
  }

  /** The faces of the shape's sub-faces are all listed. */
  lemma SubfacesValid(faces: seq<Face>, dim: nat)
    ensures PairsValid(SubfacesOf(faces, dim), |faces|, |faces|)
  {
    var s := SubfacesOf(faces, dim);
    forall k | 0 <= k < |s|
      ensures s[k].facei0 < |faces| && s[k].facei1 < |faces|
    {
      SubfacesMembers(faces, dim, s[k]);
    }
  }

  /** Whether the faces of a sub-face differ in visibility. */
  predicate Mismatched(sf: SubFace, vis: seq<bool>)
    requires sf.facei0 < |vis| && sf.facei1 < |vis|
  {
    vis[sf.facei0] == !vis[sf.facei1]
  }

  /** `calc_boundary` is defined on every sub-face between a visible and an invisible face. */
  predicate PairBoundariesDefined(subfaces: seq<SubFace>, faces: seq<Face>, vis: seq<bool>, origin: Vector)
    requires PairsValid(subfaces, |faces|, |vis|)
  {
    forall k :: 0 <= k < |subfaces| && Mismatched(subfaces[k], vis) ==>
      PointSignedDistance(PlaneOf(faces[subfaces[k].facei0]), origin)
        != PointSignedDistance(PlaneOf(faces[subfaces[k].facei1]), origin)
  }

  /** The boundaries of the first `n` sub-faces. */
  function PairBoundaries(origin: Vector, faces: seq<Face>, subfaces: seq<SubFace>, vis: seq<bool>, n: nat): seq<Plane>
    requires n <= |subfaces|
    requires PairsValid(subfaces, |faces|, |vis|)
    requires PairBoundariesDefined(subfaces, faces, vis, origin)
  {
    if n == 0 then []
    else
      var sf := subfaces[n - 1];
      PairBoundaries(origin, faces, subfaces, vis, n - 1)
        + (if Mismatched(sf, vis)
           then [Boundaries.CalcConvexBoundary(PlaneOf(faces[sf.facei0]), PlaneOf(faces[sf.facei1]), origin)]
           else [])
  }

  /** The planes of the visible faces among the first `m`. */
  function VisiblePlanes(faces: seq<Face>, vis: seq<bool>, m: nat): seq<Plane>
    requires m <= |faces| && m <= |vis|
  {
    if m == 0 then []
    else VisiblePlanes(faces, vis, m - 1) + (if vis[m - 1] then [PlaneOf(faces[m - 1])] else [])
  }

  /** What `Convex::calc_boundaries` returns. */
  function ConvexBoundaries(origin: Vector, faces: seq<Face>, subfaces: seq<SubFace>, vis: seq<bool>): seq<Plane>
    requires PairsValid(subfaces, |faces|, |vis|)
    requires PairBoundariesDefined(subfaces, faces, vis, origin)
  {
    PairBoundaries(origin, faces, subfaces, vis, |subfaces|) + VisiblePlanes(faces, vis, Min(|faces|, |vis|))
  }

  /**
   * `Convex::calc_boundaries`: push the boundary of every sub-face between a visible and an
   * invisible face, then the plane of every visible face.
   */
  method CalcBoundaries(origin: Vector, faces: seq<Face>, subfaces: seq<SubFace>, vis: seq<bool>)
    returns (boundaries: seq<Plane>)
    requires PairsValid(subfaces, |faces|, |vis|)
    requires PairBoundariesDefined(subfaces, faces, vis, origin)
    ensures boundaries == ConvexBoundaries(origin, faces, subfaces, vis)
  {
    boundaries := [];
    for k := 0 to |subfaces|
      invariant boundaries == PairBoundaries(origin, faces, subfaces, vis, k)
    {
      var sf := subfaces[k];
      if vis[sf.facei0] == !vis[sf.facei1] {
        var boundary := Boundaries.CalcConvexBoundary(PlaneOf(faces[sf.facei0]), PlaneOf(faces[sf.facei1]), origin);
        boundaries := boundaries + [boundary];
      }
    }
    var prefix := boundaries;
    var m := Min(|faces|, |vis|);
    for k := 0 to m
      invariant boundaries == prefix + VisiblePlanes(faces, vis, k)
    {
      if vis[k] {
        boundaries := boundaries + [PlaneOf(faces[k])];
      }
    }
  }

  /** The number of sub-faces among the first `n` whose faces differ in visibility. */
  function CountMismatched(subfaces: seq<SubFace>, vis: seq<bool>, n: nat): nat
    requires n <= |subfaces|
    requires forall k :: 0 <= k < |subfaces| ==> subfaces[k].facei0 < |vis| && subfaces[k].facei1 < |vis|
  {
    if n == 0 then 0 else CountMismatched(subfaces, vis, n - 1) + (if Mismatched(subfaces[n - 1], vis) then 1 else 0)
  }

  /**
   * The number of boundaries is the number of sub-faces between a visible and an invisible face
   * plus the number of visible faces; each of the sub-face boundaries passes through the camera.
   */
  lemma {:induction false} PairBoundariesCountAndPivot(origin: Vector, faces: seq<Face>, subfaces: seq<SubFace>,
                                                        vis: seq<bool>, n: nat)
    requires n <= |subfaces|
    requires PairsValid(subfaces, |faces|, |vis|)
    requires PairBoundariesDefined(subfaces, faces, vis, origin)
    requires forall i :: 0 <= i < |faces| ==> |NormalOf(faces[i])| == |origin|
    ensures |PairBoundaries(origin, faces, subfaces, vis, n)| == CountMismatched(subfaces, vis, n)
    ensures Boundaries.AllThrough(PairBoundaries(origin, faces, subfaces, vis, n), origin)
  {
    if n > 0 {
      PairBoundariesCountAndPivot(origin, faces, subfaces, vis, n - 1);
      var sf := subfaces[n - 1];
      var prev := PairBoundaries(origin, faces, subfaces, vis, n - 1);
      var cur := PairBoundaries(origin, faces, subfaces, vis, n);
      if Mismatched(sf, vis) {
        var f1 := PlaneOf(faces[sf.facei0]);
        var f2 := PlaneOf(faces[sf.facei1]);
        Boundaries.ConvexBoundaryPivot(f1, f2, origin, origin);
        assert cur == prev + [Boundaries.CalcConvexBoundary(f1, f2, origin)];
        forall k | 0 <= k < |cur|
          ensures PointSignedDistance(cur[k], origin) == 0.0
        {
          if k < |prev| {
            assert cur[k] == prev[k];
          }
        }
      }
    }
  }

  /** `p` is the plane of a visible face among the first `m`. */
  predicate IsVisiblePlane(faces: seq<Face>, vis: seq<bool>, m: nat, p: Plane)
  {
    exists i :: 0 <= i < m && i < |faces| && i < |vis| && vis[i] && p == PlaneOf(faces[i])
  }

  lemma {:induction false} VisiblePlanesCount(faces: seq<Face>, vis: seq<bool>, m: nat)
    requires m <= |faces| && m <= |vis|
    ensures |VisiblePlanes(faces, vis, m)| == Boundaries.CountTrue(vis[..m])
    ensures forall k :: 0 <= k < |VisiblePlanes(faces, vis, m)| ==>
      IsVisiblePlane(faces, vis, m, VisiblePlanes(faces, vis, m)[k])
  {
    if m > 0 {
      VisiblePlanesCount(faces, vis, m - 1);
      assert vis[..m][..m - 1] == vis[..m - 1];
      var prev := VisiblePlanes(faces, vis, m - 1);
      var cur := VisiblePlanes(faces, vis, m);
      forall k | 0 <= k < |cur|
        ensures IsVisiblePlane(faces, vis, m, cur[k])
      {
        if k < |prev| {
          assert cur[k] == prev[k];
          assert IsVisiblePlane(faces, vis, m - 1, prev[k]);
          var i :| 0 <= i < m - 1 && i < |faces| && i < |vis| && vis[i] && prev[k] == PlaneOf(faces[i]);
        } else {
          assert cur[k] == PlaneOf(faces[m - 1]);
        }
      }
    }
  }

  /**
   * The boundaries of a convex shape: one per sub-face between a visible and an invisible face,
   * all through the camera, followed by the plane of each visible face.
   */
  lemma ConvexBoundariesCount(origin: Vector, faces: seq<Face>, subfaces: seq<SubFace>, vis: seq<bool>)
    requires PairsValid(subfaces, |faces|, |vis|)
    requires PairBoundariesDefined(subfaces, faces, vis, origin)
    requires forall i :: 0 <= i < |faces| ==> |NormalOf(faces[i])| == |origin|
    ensures var bs := ConvexBoundaries(origin, faces, subfaces, vis);
      var nPairs := CountMismatched(subfaces, vis, |subfaces|);
      && |bs| == nPairs + Boundaries.CountTrue(vis[..Min(|faces|, |vis|)])
      && Boundaries.AllThrough(bs[..nPairs], origin)
      && forall k :: nPairs <= k < |bs| ==> IsVisiblePlane(faces, vis, |faces|, bs[k])
  {
    PairBoundariesCountAndPivot(origin, faces, subfaces, vis, |subfaces|);
    var m := Min(|faces|, |vis|);
    VisiblePlanesCount(faces, vis, m);
    var bs := ConvexBoundaries(origin, faces, subfaces, vis);
    var ps := PairBoundaries(origin, faces, subfaces, vis, |subfaces|);
    var vs := VisiblePlanes(faces, vis, m);
    assert bs[..|ps|] == ps;
    forall k | |ps| <= k < |bs|
      ensures IsVisiblePlane(faces, vis, |faces|, bs[k])
    {
      assert bs[k] == vs[k - |ps|];
      assert IsVisiblePlane(faces, vis, m, vs[k - |ps|]);
      var i :| 0 <= i < m && i < |faces| && i < |vis| && vis[i] && vs[k - |ps|] == PlaneOf(faces[i]);
    }
  }

  /**
   * When a face is visible exactly when the camera is strictly in front of its plane, every
   * sub-face boundary is defined.
   */
  lemma VisibilityDefinesBoundaries(subfaces: seq<SubFace>, faces: seq<Face>, vis: seq<bool>, origin: Vector)
    requires |vis| == |faces|
    requires PairsValid(subfaces, |faces|, |vis|)
    requires forall i :: 0 <= i < |faces| ==> (vis[i] <==> PointSignedDistance(PlaneOf(faces[i]), origin) > 0.0)
    ensures PairBoundariesDefined(subfaces, faces, vis, origin)
  {
  }

  // ---------------------------------------------------------------------------------------------
  // Convex::point_within

  /** `Convex::point_within`: the point is closer than `distance` to the inside of every face plane. */
  function PointWithin(point: Vector, distance: real, faces: seq<Face>): (r: bool)
    ensures r <==> forall k :: 0 <= k < |faces| ==> PointSignedDistance(PlaneOf(faces[k]), point) < distance
  {
    if |faces| == 0 then true
    else
      var rest := PointWithin(point, distance, faces[1..]);
      assert forall k :: 1 <= k < |faces| ==> faces[k] == faces[1..][k - 1];
      PointSignedDistance(PlaneOf(faces[0]), point) < distance && rest
  }

  /** Loosening the distance keeps a point within. */
  lemma PointWithinMonotone(point: Vector, d1: real, d2: real, faces: seq<Face>)
    requires d1 <= d2 && PointWithin(point, d1, faces)
    ensures PointWithin(point, d2, faces)
  {
  }
}
