/**
 * The player camera (`src/camera.rs`). It keeps the plane through the player's position whose
 * normal is the last row of the player's frame, the direction the player looks along; points
 * with a positive signed distance from that plane lie ahead of the player.
 */
module Cameras {
  import opened Vectors
  import opened Matrices
  import opened Geometry
  import Transforms

  /** `update_plane`: the plane through `pos` whose normal is the heading `frame[-1]`. */
  function CameraPlane(pos: Vector, frame: Matrix): (p: Plane)
    requires |frame| > 0
    ensures p.normal == frame[|frame| - 1]
    ensures PointSignedDistance(p, pos) == 0.0
  {
    FromNormalAndPoint(frame[|frame| - 1], pos)
  }

  /** A point's signed distance from the camera plane is its offset from `pos` along the heading. */
  lemma CameraPlaneAhead(pos: Vector, frame: Matrix, q: Vector)
    requires IsMatrix(frame, |pos|) && |pos| > 0 && |q| == |pos|
    ensures PointSignedDistance(CameraPlane(pos, frame), q) == Dot(frame[|pos| - 1], Sub(q, pos))
  {
    FromNormalAndPointDistance(frame[|pos| - 1], pos, q);
  }

  /** `Camera`: only its plane is state. */
  class Camera {
    var plane: Plane

    /** `Camera::new`: the plane through the transform's position with normal `one_hot(-1)`. */
    constructor (t: Transforms.Transform)
      requires t.Valid() && t.dim > 0
      ensures plane == FromNormalAndPoint(OneHot(t.dim, t.dim - 1), t.pos)
    {
      plane := FromNormalAndPoint(OneHot(t.dim, t.dim - 1), t.pos);
    }

    /** `Camera::update`, that is `update_plane`: follow the transform's position and heading. */
    method Update(t: Transforms.Transform)
      requires t.Valid() && t.dim > 0
      modifies this
      ensures plane == CameraPlane(t.pos, t.frame)
    {
      plane := CameraPlane(t.pos, t.frame);
    }
  }
}
