/**
 * Square matrices as sequences of rows, with the products the transforms use: `m * v` (each row
 * dotted with `v`), `a.dot(b)` (each row of `a` combining the rows of `b`) and the identity.
 */
module Matrices {
  import opened Vectors

  type Matrix = seq<Vector>

  /** `dim` rows of `dim` entries. */
  predicate IsMatrix(m: Matrix, dim: nat)
  {
    |m| == dim && forall i :: 0 <= i < dim ==> |m[i]| == dim
  }

  /** `M::id()`. */
  function Identity(dim: nat): (m: Matrix)
    ensures IsMatrix(m, dim)
  {
    seq(dim, i requires 0 <= i < dim => OneHot(dim, i))
  }

  /** `m * v`: the vector of row products. */
  function MatVec(m: Matrix, v: Vector): (w: Vector)
    ensures |w| == |m| && forall i :: 0 <= i < |m| ==> w[i] == Dot(m[i], v)
  {
    seq(|m|, i requires 0 <= i < |m| => Dot(m[i], v))
  }

  /** Column `j` of `m`. */
  function Column(m: Matrix, j: nat): (c: Vector)
    ensures |c| == |m| && forall k :: 0 <= k < |m| ==> c[k] == (if j < |m[k]| then m[k][j] else 0.0)
  {
    seq(|m|, k requires 0 <= k < |m| => if j < |m[k]| then m[k][j] else 0.0)
  }

  /** `c[0] * rows[0] + c[1] * rows[1] + ...`, a vector of length `dim`. */
  function LinComb(c: Vector, rows: Matrix, dim: nat): (r: Vector)
    requires forall k :: 0 <= k < |rows| ==> |rows[k]| == dim
    ensures |r| == dim
  {
    if |c| == 0 || |rows| == 0 then Zero(dim)
    else Add(Scale(rows[0], c[0]), LinComb(c[1..], rows[1..], dim))
  }

  /** `a.dot(b)`: row `i` of the product combines the rows of `b` with the entries of `a[i]`. */
  function MatMul(a: Matrix, b: Matrix, dim: nat): (m: Matrix)
    requires forall k :: 0 <= k < |b| ==> |b[k]| == dim
    ensures |m| == |a| && forall i :: 0 <= i < |a| ==> |m[i]| == dim
  {
    seq(|a|, i requires 0 <= i < |a| => LinComb(a[i], b, dim))
  }

  /** Entry `j` of a combination of rows is the dot product with column `j`. */
  lemma {:induction false} LinCombAt(c: Vector, rows: Matrix, dim: nat, j: nat)
    requires |c| == |rows| && j < dim
    requires forall k :: 0 <= k < |rows| ==> |rows[k]| == dim
    ensures LinComb(c, rows, dim)[j] == Dot(c, Column(rows, j))
  {
    if |c| != 0 {
      LinCombAt(c[1..], rows[1..], dim, j);
      assert Column(rows, j)[1..] == Column(rows[1..], j);
    }
  }

  /** Dotting a combination of rows is combining the rows' dot products. */
  lemma {:induction false} DotLinComb(c: Vector, rows: Matrix, dim: nat, v: Vector)
    requires |c| == |rows| && |v| == dim
    requires forall k :: 0 <= k < |rows| ==> |rows[k]| == dim
    ensures Dot(LinComb(c, rows, dim), v) == Dot(c, MatVec(rows, v))
  {
    if |c| == 0 {
      DotZero(dim, v);
    } else {
      DotLinComb(c[1..], rows[1..], dim, v);
      DotAdd(Scale(rows[0], c[0]), LinComb(c[1..], rows[1..], dim), v);
      DotScale(rows[0], c[0], v);
      assert MatVec(rows, v)[1..] == MatVec(rows[1..], v);
    }
  }

  /** Multiplying by a product is multiplying by each factor in turn. */
  lemma MatMulVec(a: Matrix, b: Matrix, dim: nat, v: Vector)
    requires IsMatrix(a, dim) && IsMatrix(b, dim) && |v| == dim
    ensures MatVec(MatMul(a, b, dim), v) == MatVec(a, MatVec(b, v))
  {
    forall i | 0 <= i < dim
      ensures MatVec(MatMul(a, b, dim), v)[i] == MatVec(a, MatVec(b, v))[i]
    {
      DotLinComb(a[i], b, dim, v);
    }
  }

  lemma ColumnOfIdentity(dim: nat, j: nat)
    requires j < dim
    ensures Column(Identity(dim), j) == OneHot(dim, j)
  {
  }

  /** The identity leaves every vector unchanged. */
  lemma MatVecIdentity(v: Vector)
    ensures MatVec(Identity(|v|), v) == v
  {
    forall i | 0 <= i < |v|
      ensures Dot(OneHot(|v|, i), v) == v[i]
    {
      DotOneHot(v, |v|, i);
      DotSymmetric(v, OneHot(|v|, i));
    }
  }

  /** The identity is a two-sided unit of the product. */
  lemma MatMulIdentity(a: Matrix, dim: nat)
    requires IsMatrix(a, dim)
    ensures MatMul(a, Identity(dim), dim) == a
    ensures MatMul(Identity(dim), a, dim) == a
  {
    forall i | 0 <= i < dim
      ensures MatMul(a, Identity(dim), dim)[i] == a[i]
      ensures MatMul(Identity(dim), a, dim)[i] == a[i]
    {
      forall j | 0 <= j < dim
        ensures MatMul(a, Identity(dim), dim)[i][j] == a[i][j]
        ensures MatMul(Identity(dim), a, dim)[i][j] == a[i][j]
      {
        LinCombAt(a[i], Identity(dim), dim, j);
        ColumnOfIdentity(dim, j);
        DotOneHot(a[i], dim, j);
        LinCombAt(OneHot(dim, i), a, dim, j);
        DotOneHot(Column(a, j), dim, i);
        DotSymmetric(OneHot(dim, i), Column(a, j));
      }
    }
  }
}
