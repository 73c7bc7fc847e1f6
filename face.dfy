/**
 * Faces of a shape (`src/geometry/shape/face.rs`). A face is given by indices into the shape's
 * edge list; its vertex indices are the distinct endpoints of those edges, its centre is the
 * barycentre of those vertices, and its plane has the unit normal through the centre.
 */
module Faces {
  import opened Vectors
  import opened Geometry
  import opened Itertools

  /** `Edge(VertIndex, VertIndex)`. */
  datatype Edge = Edge(v0: nat, v1: nat)

  /** `FaceGeometry`: the face plane and the face centre. */
  datatype FaceGeometry = FaceGeometry(plane: Plane, center: Vector)

  datatype Face = Face(geometry: FaceGeometry, edgeis: seq<nat>, vertis: seq<nat>, twoSided: bool)

  /** `Face::plane`. */
  function PlaneOf(f: Face): Plane { f.geometry.plane }

  /** `Face::normal`. */
  function NormalOf(f: Face): Vector { f.geometry.plane.normal }

  /** `Face::center`. */
  function CenterOf(f: Face): Vector { f.geometry.center }

  /** Every listed edge index refers to an edge. */
  predicate EdgeIndicesValid(edgeis: seq<nat>, edges: seq<Edge>)
  {
    forall k :: 0 <= k < |edgeis| ==> edgeis[k] < |edges|
  }

  /** The endpoints of the listed edges, two per edge, in order. */
  function Endpoints(edgeis: seq<nat>, edges: seq<Edge>): (r: seq<nat>)
    requires EdgeIndicesValid(edgeis, edges)
    ensures |r| == 2 * |edgeis|
  {
    if |edgeis| == 0 then []
    else
      var edge := edges[edgeis[|edgeis| - 1]];
      Endpoints(edgeis[..|edgeis| - 1], edges) + [edge.v0, edge.v1]
  }

  /** A vertex index is an endpoint exactly when some listed edge has it as an end. */
  lemma {:induction false} EndpointsMembers(edgeis: seq<nat>, edges: seq<Edge>, x: nat)
    requires EdgeIndicesValid(edgeis, edges)
    ensures x in Endpoints(edgeis, edges) <==>
      exists k :: 0 <= k < |edgeis| && x in {edges[edgeis[k]].v0, edges[edgeis[k]].v1}
  {
    if |edgeis| > 0 {
      var init := edgeis[..|edgeis| - 1];
      EndpointsMembers(init, edges, x);
      if x in Endpoints(init, edges) {
        var k :| 0 <= k < |init| && x in {edges[init[k]].v0, edges[init[k]].v1};
        assert edgeis[k] == init[k];
      }
      forall k | 0 <= k < |edgeis| - 1
        ensures edgeis[k] == init[k]
      {
      }
    }
  }

  /**
   * `Face::calc_vertis`: push both endpoints of every listed edge, then keep the first
   * occurrence of each vertex index.
   */
  method CalcVertis(edgeis: seq<nat>, edges: seq<Edge>) returns (vertis: seq<nat>)
    requires EdgeIndicesValid(edgeis, edges)
    ensures vertis == Unique(Endpoints(edgeis, edges))
  {
    var all: seq<nat> := [];
    for i := 0 to |edgeis|
      invariant all == Endpoints(edgeis[..i], edges)
    {
      var edge := edges[edgeis[i]];
      all := all + [edge.v0];
      all := all + [edge.v1];
      assert edgeis[..i + 1][..i] == edgeis[..i];
    }
    assert edgeis[..|edgeis|] == edgeis;
    vertis := UniqueInOrder(all);
  }

  /**
   * What `calc_vertis` returns: duplicate-free vertex indices that are exactly the endpoints of
   * the listed edges.
   */
  lemma CalcVertisContents(edgeis: seq<nat>, edges: seq<Edge>)
    requires EdgeIndicesValid(edgeis, edges)
    ensures NoDuplicates(Unique(Endpoints(edgeis, edges)))
    ensures forall x :: x in Unique(Endpoints(edgeis, edges)) <==>
      exists k :: 0 <= k < |edgeis| && x in {edges[edgeis[k]].v0, edges[edgeis[k]].v1}
  {
    forall x
      ensures x in Unique(Endpoints(edgeis, edges)) <==>
        exists k :: 0 <= k < |edgeis| && x in {edges[edgeis[k]].v0, edges[edgeis[k]].v1}
    {
      EndpointsMembers(edgeis, edges, x);
    }
  }

  /** The positions of the listed vertices. */
  function FaceVerts(shapeVerts: seq<Vector>, vertis: seq<nat>): (r: seq<Vector>)
    requires VertisBelow(vertis, |shapeVerts|)
    ensures |r| == |vertis| && forall k :: 0 <= k < |vertis| ==> r[k] == shapeVerts[vertis[k]]
  {
    seq(|vertis|, k requires 0 <= k < |vertis| => shapeVerts[vertis[k]])
  }

  /** Every edge of the shape joins two of its vertices. */
  predicate EdgesValid(shapeVerts: seq<Vector>, edges: seq<Edge>)
  {
    forall k :: 0 <= k < |edges| ==> edges[k].v0 < |shapeVerts| && edges[k].v1 < |shapeVerts|
  }

  /**
   * `Face::new`: the vertex indices from `calc_vertis`, the centre at the barycentre of the face
   * vertices, and the plane with the normalised normal through the centre. The face has at
   * least one edge (the barycentre of no vertices divides by zero) and a non-zero normal.
   */
  method NewFace(shapeVerts: seq<Vector>, shapeEdges: seq<Edge>, edgeis: seq<nat>, normal: Vector,
                 twoSided: bool, sqrt: real -> real) returns (f: Face)
    requires IsSqrt(sqrt) && Dot(normal, normal) > 0.0
    requires forall k :: 0 <= k < |shapeVerts| ==> |shapeVerts[k]| == |normal|
    requires EdgesValid(shapeVerts, shapeEdges) && EdgeIndicesValid(edgeis, shapeEdges)
    requires |edgeis| > 0
    ensures f.edgeis == edgeis && f.twoSided == twoSided
    ensures f.vertis == Unique(Endpoints(edgeis, shapeEdges))
    ensures |f.vertis| > 0 && forall k :: 0 <= k < |f.vertis| ==> f.vertis[k] < |shapeVerts|
    ensures CenterOf(f) == Barycenter(FaceVerts(shapeVerts, f.vertis), |normal|)
    ensures NormalOf(f) == Normalize(normal, sqrt)
    ensures PlaneOf(f) == FromNormalAndPoint(Normalize(normal, sqrt), CenterOf(f))
    ensures Dot(NormalOf(f), NormalOf(f)) == 1.0 && PointSignedDistance(PlaneOf(f), CenterOf(f)) == 0.0
  {
    var vertis := CalcVertis(edgeis, shapeEdges);
    VertisInRange(shapeVerts, shapeEdges, edgeis);
    var faceVerts := FaceVerts(shapeVerts, vertis);
    var center := Barycenter(faceVerts, |normal|);
    f := Face(FaceGeometry(FromNormalAndPoint(Normalize(normal, sqrt), center), center),
              edgeis, vertis, twoSided);
  }

  predicate VertisBelow(vertis: seq<nat>, n: nat)
  {
    forall k :: 0 <= k < |vertis| ==> vertis[k] < n
  }

  /** The vertex indices of a face over valid edges index the shape's vertices. */
  lemma VertisInRange(shapeVerts: seq<Vector>, shapeEdges: seq<Edge>, edgeis: seq<nat>)
    requires EdgesValid(shapeVerts, shapeEdges) && EdgeIndicesValid(edgeis, shapeEdges)
    ensures |edgeis| > 0 ==> |Unique(Endpoints(edgeis, shapeEdges))| > 0
    ensures VertisBelow(Unique(Endpoints(edgeis, shapeEdges)), |shapeVerts|)
  {
    if |edgeis| > 0 {
      assert Endpoints(edgeis, shapeEdges)[0] in Unique(Endpoints(edgeis, shapeEdges));
    }
    var vertis := Unique(Endpoints(edgeis, shapeEdges));
    forall k | 0 <= k < |vertis|
      ensures vertis[k] < |shapeVerts|
    {
      assert vertis[k] in Endpoints(edgeis, shapeEdges);
      EndpointsMembers(edgeis, shapeEdges, vertis[k]);
      var j :| 0 <= j < |edgeis| && vertis[k] in {shapeEdges[edgeis[j]].v0, shapeEdges[edgeis[j]].v1};
      assert edgeis[j] < |shapeEdges|;
    }
  }

  /**
   * When the face's vertices are coplanar, lying on a plane orthogonal to `normal`, the plane
   * `Face::new` builds passes through every one of them.
   */
  lemma FacePlaneThroughVertices(faceVerts: seq<Vector>, normal: Vector, c: real, sqrt: real -> real)
    requires IsSqrt(sqrt) && Dot(normal, normal) > 0.0 && |faceVerts| > 0
    requires forall k :: 0 <= k < |faceVerts| ==> |faceVerts[k]| == |normal|
    requires forall k :: 0 <= k < |faceVerts| ==> Dot(faceVerts[k], normal) == c
    ensures var plane := FromNormalAndPoint(Normalize(normal, sqrt), Barycenter(faceVerts, |normal|));
      forall k :: 0 <= k < |faceVerts| ==> PointSignedDistance(plane, faceVerts[k]) == 0.0
  {
    var n := Norm(normal, sqrt);
    var u := Normalize(normal, sqrt);
    assert u == Div(normal, n);
    forall k | 0 <= k < |faceVerts|
      ensures Dot(faceVerts[k], u) == c / n
    {
      DotDiv(normal, n, faceVerts[k]);
      DotSymmetric(normal, faceVerts[k]);
      DotSymmetric(u, faceVerts[k]);
    }
    var center := Barycenter(faceVerts, |normal|);
    BarycenterOnPlane(faceVerts, |normal|, u, c / n);
    var plane := FromNormalAndPoint(u, center);
    DotSymmetric(u, center);
    forall k | 0 <= k < |faceVerts|
      ensures PointSignedDistance(plane, faceVerts[k]) == 0.0
    {
      DotSymmetric(u, faceVerts[k]);
    }
  }
}
