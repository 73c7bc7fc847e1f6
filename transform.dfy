/**
 * Scalings and transforms (`src/geometry/transform.rs`). A transform maps `v` to
 * `frame * scale(v) + pos`. Composing two transforms adds their positions, multiplies their frames
 * and composes their scalings, which is not the composition of the two affine maps.
 */
module Transforms {
  import opened Wrappers
  import opened Vectors
  import opened Matrices

  // ---------------------------------------------------------------------------------------------
  // Scaling

  /** `Scaling::Scalar(s)` or `Scaling::Vector(v)`. */
  datatype Scaling = Scalar(s: real) | PerAxis(v: Vector)

  /** `Scaling::unit`. */
  function Unit(): Scaling
  {
    Scalar(1.0)
  }

  /** `Scaling::scale_vec`: multiply by the scalar, or componentwise by the scaling vector. */
  function ScaleVec(sc: Scaling, vec: Vector): Vector
  {
    match sc
    case Scalar(s) => Scale(vec, s)
    case PerAxis(v) => ElmtMult(v, vec)
  }

  /** `Scaling::compose`. */
  function ComposeScaling(a: Scaling, b: Scaling): Scaling
  {
    match (a, b)
    case (Scalar(s1), Scalar(s2)) => Scalar(s1 * s2)
    case (PerAxis(v1), Scalar(s2)) => PerAxis(Scale(v1, s2))
    case (Scalar(s1), PerAxis(v2)) => PerAxis(Scale(v2, s1))
    case (PerAxis(_), PerAxis(v2)) => PerAxis(ScaleVec(a, v2))
  }

  /** `Scaling::get_vec`: the scaling as a vector of per-axis factors. */
  function GetVec(sc: Scaling, dim: nat): Vector
  {
    match sc
    case Scalar(s) => Scale(Constant(dim, 1.0), s)
    case PerAxis(v) => v
  }

  /** A per-axis scaling has one factor per axis. */
  predicate ScalingFits(sc: Scaling, dim: nat)
  {
    sc.PerAxis? ==> |sc.v| == dim
  }

  /** The unit scaling leaves vectors unchanged and is a two-sided unit of composition. */
  lemma UnitScaling(sc: Scaling, vec: Vector)
    ensures ScaleVec(Unit(), vec) == vec
    ensures ComposeScaling(Unit(), sc) == sc && ComposeScaling(sc, Unit()) == sc
  {
  }

  /** Scaling by a composed scaling is scaling by each in turn. */
  lemma ScaleVecCompose(a: Scaling, b: Scaling, vec: Vector)
    requires ScalingFits(a, |vec|) && ScalingFits(b, |vec|)
    ensures ScaleVec(ComposeScaling(a, b), vec) == ScaleVec(a, ScaleVec(b, vec))
  {
    var lhs := ScaleVec(ComposeScaling(a, b), vec);
    var rhs := ScaleVec(a, ScaleVec(b, vec));
    assert |lhs| == |rhs| == |vec|;
    forall i | 0 <= i < |vec|
      ensures lhs[i] == rhs[i]
    {
      match (a, b)
      case (Scalar(s1), Scalar(s2)) =>
        assert lhs[i] == vec[i] * (s1 * s2) && rhs[i] == (vec[i] * s2) * s1;
      case (PerAxis(v1), Scalar(s2)) =>
        assert lhs[i] == (v1[i] * s2) * vec[i] && rhs[i] == v1[i] * (vec[i] * s2);
      case (Scalar(s1), PerAxis(v2)) =>
        assert lhs[i] == (v2[i] * s1) * vec[i] && rhs[i] == (v2[i] * vec[i]) * s1;
      case (PerAxis(v1), PerAxis(v2)) =>
        assert lhs[i] == (v1[i] * v2[i]) * vec[i] && rhs[i] == v1[i] * (v2[i] * vec[i]);
    }
  }

  /** Scaling composition commutes. */
  lemma ComposeScalingCommutes(a: Scaling, b: Scaling)
    ensures ComposeScaling(a, b) == ComposeScaling(b, a)
  {
  }

  /** Scaling a vector multiplies it componentwise by the factors `get_vec` lists. */
  lemma GetVecScales(sc: Scaling, vec: Vector)
    requires ScalingFits(sc, |vec|)
    ensures |GetVec(sc, |vec|)| == |vec|
    ensures ScaleVec(sc, vec) == ElmtMult(GetVec(sc, |vec|), vec)
  {
    var lhs := ScaleVec(sc, vec);
    var rhs := ElmtMult(GetVec(sc, |vec|), vec);
    assert |lhs| == |rhs| == |vec|;
    forall i | 0 <= i < |vec|
      ensures lhs[i] == rhs[i]
    {
      if sc.Scalar? {
        assert rhs[i] == (1.0 * sc.s) * vec[i];
      }
    }
  }

  // ---------------------------------------------------------------------------------------------
  // Transform

  /** `frame * scale.scale_vec(vec) + pos`. */
  function Apply(pos: Vector, frame: Matrix, scale: Scaling, vec: Vector): Vector
  {
    Add(MatVec(frame, ScaleVec(scale, vec)), pos)
  }

  lemma AddZero(v: Vector)
    ensures Add(v, Zero(|v|)) == v
  {
  }

  /** The identity transform maps every vector to itself. */
  lemma ApplyIdentity(vec: Vector)
    ensures Apply(Zero(|vec|), Identity(|vec|), Unit(), vec) == vec
  {
    UnitScaling(Unit(), vec);
    MatVecIdentity(vec);
    AddZero(vec);
  }

  /** Translating a transform translates its image by the same amount. */
  lemma ApplyTranslated(pos: Vector, frame: Matrix, scale: Scaling, delta: Vector, vec: Vector)
    requires IsMatrix(frame, |vec|) && |pos| == |vec| && |delta| == |vec| && ScalingFits(scale, |vec|)
    ensures Apply(Add(pos, delta), frame, scale, vec) == Add(Apply(pos, frame, scale, vec), delta)
  {
  }

  /**
   * The composed transform maps `v` to `R1 R2 S1 S2 v + (p1 + p2)`: frames and scalings are
   * applied one after the other while the positions are simply added.
   */
  lemma ApplyComposed(p1: Vector, f1: Matrix, s1: Scaling, p2: Vector, f2: Matrix, s2: Scaling, vec: Vector)
    requires |p1| == |p2| == |vec| && IsMatrix(f1, |vec|) && IsMatrix(f2, |vec|)
    requires ScalingFits(s1, |vec|) && ScalingFits(s2, |vec|)
    ensures Apply(Add(p1, p2), MatMul(f1, f2, |vec|), ComposeScaling(s1, s2), vec)
      == Add(MatVec(f1, MatVec(f2, ScaleVec(s1, ScaleVec(s2, vec)))), Add(p1, p2))
  {
    ScaleVecCompose(s1, s2, vec);
    MatMulVec(f1, f2, |vec|, ScaleVec(s1, ScaleVec(s2, vec)));
  }

  /** Every rotation matrix the builder returns is a `dim` by `dim` matrix. */
  ghost predicate RotationsFit(rotationMatrix: (Vector, Vector, real) -> Matrix, dim: nat)
  {
    forall u, v, a :: IsMatrix(rotationMatrix(u, v, a), dim)
  }

  /**
   * `Transform`: position, frame and scaling of an entity, in a space of `dim` dimensions.
   */
  class Transform {
    const dim: nat
    var pos: Vector
    var frame: Matrix
    var scale: Scaling

    /** Position, frame and scaling live in the transform's dimension. */
    predicate Valid()
      reads this
    {
      |pos| == dim && IsMatrix(frame, dim) && ScalingFits(scale, dim)
    }

    /** `Transform::identity`. */
    constructor Identity(dim: nat)
      ensures this.dim == dim && Valid()
      ensures pos == Zero(dim) && frame == Matrices.Identity(dim) && scale == Unit()
    {
      this.dim := dim;
      pos := Zero(dim);
      frame := Matrices.Identity(dim);
      scale := Unit();
    }

    /** `Transform::new`: each missing part defaults to that of the identity. */
    constructor New(dim: nat, maybePos: Option<Vector>, maybeFrame: Option<Matrix>, maybeScale: Option<Scaling>)
      requires maybePos.Some? ==> |maybePos.value| == dim
      requires maybeFrame.Some? ==> IsMatrix(maybeFrame.value, dim)
      requires maybeScale.Some? ==> ScalingFits(maybeScale.value, dim)
      ensures this.dim == dim && Valid()
      ensures pos == (if maybePos.Some? then maybePos.value else Zero(dim))
      ensures frame == (if maybeFrame.Some? then maybeFrame.value else Matrices.Identity(dim))
      ensures scale == (if maybeScale.Some? then maybeScale.value else Unit())
    {
      this.dim := dim;
      pos := if maybePos.Some? then maybePos.value else Zero(dim);
      frame := if maybeFrame.Some? then maybeFrame.value else Matrices.Identity(dim);
      scale := if maybeScale.Some? then maybeScale.value else Unit();
    }

    /** `Transform::translate`: move the position, keep the frame and the scaling. */
    method Translate(posDelta: Vector)
      requires Valid() && |posDelta| == dim
      modifies this
      ensures Valid()
      ensures pos == Add(old(pos), posDelta) && frame == old(frame) && scale == old(scale)
    {
      pos := Add(pos, posDelta);
    }

    /**
     * `Transform::rotate`: turn the frame in the plane of its rows `axis1` and `axis2` by
     * `angle`, by multiplying it on the left with the rotation matrix that `rotationMatrix` builds
     * from those two rows (the cosines and sines are outside this model).
     */
    method Rotate(axis1: nat, axis2: nat, angle: real, rotationMatrix: (Vector, Vector, real) -> Matrix)
      requires Valid() && axis1 < dim && axis2 < dim && RotationsFit(rotationMatrix, dim)
      modifies this
      ensures Valid()
      ensures frame == MatMul(rotationMatrix(old(frame)[axis1], old(frame)[axis2], angle), old(frame), dim)
      ensures pos == old(pos) && scale == old(scale)
    {
      var rot := rotationMatrix(frame[axis1], frame[axis2], angle);
      frame := MatMul(rot, frame, dim);
    }

    /** `Transform::scale`: compose the scaling, keep the position and the frame. */
    method Scale(scaling: Scaling)
      requires Valid() && ScalingFits(scaling, dim)
      modifies this
      ensures Valid()
      ensures scale == ComposeScaling(old(scale), scaling) && pos == old(pos) && frame == old(frame)
    {
      scale := ComposeScaling(scale, scaling);
    }

    /** `Transform::transform_vec`: `frame * scale(vec) + pos`, a vector of the same dimension. */
    function TransformVec(vec: Vector): (r: Vector)
      requires Valid() && |vec| == dim
      reads this
      ensures |r| == dim
    {
      Apply(pos, frame, scale, vec)
    }

    /** `Transform::set_transform`: copy all three parts of another transform. */
    method SetTransform(t: Transform)
      requires Valid() && t.Valid() && t.dim == dim
      modifies this
      ensures Valid()
      ensures pos == old(t.pos) && frame == old(t.frame) && scale == old(t.scale)
    {
      var p, f, s := t.pos, t.frame, t.scale;
      pos, frame, scale := p, f, s;
    }

    /** `Transform::compose`: add the positions, multiply the frames, compose the scalings. */
    method Compose(t: Transform)
      requires Valid() && t.Valid() && t.dim == dim
      modifies this
      ensures Valid()
      ensures pos == Add(old(pos), old(t.pos))
      ensures frame == MatMul(old(frame), old(t.frame), dim)
      ensures scale == ComposeScaling(old(scale), old(t.scale))
    {
      var p := Add(pos, t.pos);
      var f := MatMul(frame, t.frame, dim);
      var s := ComposeScaling(scale, t.scale);
      pos, frame, scale := p, f, s;
    }
  }

  /** Composing with the identity leaves a transform unchanged. */
  lemma ComposeIdentity(pos: Vector, frame: Matrix, scale: Scaling)
    requires IsMatrix(frame, |pos|)
    ensures Add(pos, Zero(|pos|)) == pos
    ensures MatMul(frame, Matrices.Identity(|pos|), |pos|) == frame
    ensures ComposeScaling(scale, Unit()) == scale
  {
    AddZero(pos);
    MatMulIdentity(frame, |pos|);
    UnitScaling(scale, pos);
  }
}
