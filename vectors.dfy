/**
 * Vector arithmetic of `src/vector.rs`. A `Field` is a `real`; a vector is a sequence of
 * reals. Every vector of one scene has the same static dimension, so the elementwise operations
 * below pair up components the way `zip` does (over the shorter length) and the lemmas that need
 * equal lengths say so.
 */
module Vectors {
  type Vector = seq<real>

  /** `EPSILON` of `src/vector.rs`. */
  const EPSILON: real := 0.0001

  function Min(a: int, b: int): int { if a < b then a else b }

  /** `2^n`. */
  function Pow2(n: nat): nat
  {
    if n == 0 then 1 else 2 * Pow2(n - 1)
  }

  function Abs(x: real): real { if x < 0.0 then -x else x }

  /** `is_close`: the two scalars differ by less than `EPSILON`. */
  predicate IsClose(a: real, b: real) { Abs(a - b) < EPSILON }

  lemma IsCloseSymmetric(a: real, b: real)
    ensures IsClose(a, b) <==> IsClose(b, a)
    ensures IsClose(a, b) <==> -EPSILON < a - b < EPSILON
  {
  }

  /** `scalar_linterp`: `a*(1-t) + b*t`. */
  function ScalarLinterp(a: real, b: real, t: real): real { a * (1.0 - t) + b * t }

  lemma ScalarLinterpEnds(a: real, b: real)
    ensures ScalarLinterp(a, b, 0.0) == a && ScalarLinterp(a, b, 1.0) == b
  {
  }

  /** The interpolation parameter at which `ScalarLinterp(a, b, _)` takes the value `c`. */
  lemma ScalarLinterpHits(a: real, b: real, c: real)
    requires a != b
    ensures ScalarLinterp(a, b, (a - c) / (a - b)) == c
  {
    var t := (a - c) / (a - b);
    assert t * (a - b) == a - c;
    calc {
      ScalarLinterp(a, b, t);
      a - t * (a - b);
      c;
    }
  }

  function Zero(dim: nat): (z: Vector)
    ensures |z| == dim && forall i :: 0 <= i < dim ==> z[i] == 0.0
  {
    seq(dim, i => 0.0)
  }

  function Constant(dim: nat, a: real): (c: Vector)
    ensures |c| == dim && forall i :: 0 <= i < dim ==> c[i] == a
  {
    seq(dim, i => a)
  }

  /** `one_hot(i)`: row `i` of the identity. */
  function OneHot(dim: nat, i: nat): (e: Vector)
    ensures |e| == dim && forall j :: 0 <= j < dim ==> e[j] == if j == i then 1.0 else 0.0
  {
    seq(dim, j => if j == i then 1.0 else 0.0)
  }

  function Add(u: Vector, v: Vector): (w: Vector)
    ensures |w| == Min(|u|, |v|)
    ensures forall i :: 0 <= i < |w| ==> w[i] == u[i] + v[i]
  {
    seq(Min(|u|, |v|), i requires 0 <= i < Min(|u|, |v|) => u[i] + v[i])
  }

  function Sub(u: Vector, v: Vector): (w: Vector)
    ensures |w| == Min(|u|, |v|)
    ensures forall i :: 0 <= i < |w| ==> w[i] == u[i] - v[i]
  {
    seq(Min(|u|, |v|), i requires 0 <= i < Min(|u|, |v|) => u[i] - v[i])
  }

  function Neg(v: Vector): (w: Vector)
    ensures |w| == |v| && forall i :: 0 <= i < |v| ==> w[i] == -v[i]
  {
    seq(|v|, i requires 0 <= i < |v| => -v[i])
  }

  /** `v * s` */
  function Scale(v: Vector, s: real): (w: Vector)
    ensures |w| == |v| && forall i :: 0 <= i < |v| ==> w[i] == v[i] * s
  {
    seq(|v|, i requires 0 <= i < |v| => v[i] * s)
  }

  /** `v / s` */
  function Div(v: Vector, s: real): (w: Vector)
    requires s != 0.0
    ensures |w| == |v| && forall i :: 0 <= i < |v| ==> w[i] == v[i] / s
  {
    seq(|v|, i requires 0 <= i < |v| => v[i] / s)
  }

  /** `elmt_mult`: componentwise product. */
  function ElmtMult(u: Vector, v: Vector): (w: Vector)
    ensures |w| == Min(|u|, |v|)
    ensures forall i :: 0 <= i < |w| ==> w[i] == u[i] * v[i]
  {
    seq(Min(|u|, |v|), i requires 0 <= i < Min(|u|, |v|) => u[i] * v[i])
  }

  function Dot(u: Vector, v: Vector): real
  {
    if |u| == 0 || |v| == 0 then 0.0 else u[0] * v[0] + Dot(u[1..], v[1..])
  }

  /** `linterp(v1, v2, x) = v1*(1-x) + v2*x` */
  function Linterp(v1: Vector, v2: Vector, x: real): Vector
  {
    Add(Scale(v1, 1.0 - x), Scale(v2, x))
  }

  lemma LinterpAt(v1: Vector, v2: Vector, x: real, i: int)
    requires 0 <= i < |v1| && |v1| == |v2|
    ensures |Linterp(v1, v2, x)| == |v1|
    ensures Linterp(v1, v2, x)[i] == ScalarLinterp(v1[i], v2[i], x)
  {
  }

  lemma LinterpEnds(v1: Vector, v2: Vector)
    requires |v1| == |v2|
    ensures Linterp(v1, v2, 0.0) == v1 && Linterp(v1, v2, 1.0) == v2
  {
    assert Linterp(v1, v2, 0.0) == v1;
    assert Linterp(v1, v2, 1.0) == v2;
  }

  lemma {:induction false} DotSymmetric(u: Vector, v: Vector)
    ensures Dot(u, v) == Dot(v, u)
  {
    if |u| != 0 && |v| != 0 {
      DotSymmetric(u[1..], v[1..]);
    }
  }

  lemma {:induction false} DotAdd(u: Vector, v: Vector, w: Vector)
    requires |u| == |v| == |w|
    ensures Dot(Add(u, v), w) == Dot(u, w) + Dot(v, w)
  {
    if |u| != 0 {
      assert Add(u, v)[1..] == Add(u[1..], v[1..]);
      DotAdd(u[1..], v[1..], w[1..]);
    }
  }

  lemma {:induction false} DotSub(u: Vector, v: Vector, w: Vector)
    requires |u| == |v| == |w|
    ensures Dot(Sub(u, v), w) == Dot(u, w) - Dot(v, w)
  {
    if |u| != 0 {
      assert Sub(u, v)[1..] == Sub(u[1..], v[1..]);
      DotSub(u[1..], v[1..], w[1..]);
    }
  }

  lemma {:induction false} DotScale(u: Vector, s: real, w: Vector)
    requires |u| == |w|
    ensures Dot(Scale(u, s), w) == s * Dot(u, w)
  {
    if |u| != 0 {
      var su := Scale(u, s);
      assert su[1..] == Scale(u[1..], s) by {
        forall i | 0 <= i < |u| - 1 ensures su[1..][i] == Scale(u[1..], s)[i] {
        }
      }
      DotScale(u[1..], s, w[1..]);
      calc {
        Dot(su, w);
        su[0] * w[0] + Dot(su[1..], w[1..]);
        (u[0] * s) * w[0] + s * Dot(u[1..], w[1..]);
        { assert (u[0] * s) * w[0] == s * (u[0] * w[0]); }
        s * (u[0] * w[0]) + s * Dot(u[1..], w[1..]);
        s * (u[0] * w[0] + Dot(u[1..], w[1..]));
      }
    }
  }

  lemma {:induction false} DotNeg(u: Vector, w: Vector)
    requires |u| == |w|
    ensures Dot(Neg(u), w) == -Dot(u, w)
  {
    if |u| != 0 {
      assert Neg(u)[1..] == Neg(u[1..]);
      DotNeg(u[1..], w[1..]);
    }
  }

  lemma {:induction false} DotZero(dim: nat, w: Vector)
    ensures Dot(Zero(dim), w) == 0.0
  {
    if dim != 0 && |w| != 0 {
      assert Zero(dim)[1..] == Zero(dim - 1);
      DotZero(dim - 1, w[1..]);
    }
  }

  /**
   * The signed margin of an interpolated point is the interpolation of the endpoint margins:
   * the fact every clipping routine relies on when it solves for a crossing parameter.
   */
  lemma {:induction false} DotLinterp(p0: Vector, p1: Vector, n: Vector, t: real)
    requires |p0| == |p1| == |n|
    ensures Dot(Linterp(p0, p1, t), n) == ScalarLinterp(Dot(p0, n), Dot(p1, n), t)
  {
    DotAdd(Scale(p0, 1.0 - t), Scale(p1, t), n);
    DotScale(p0, 1.0 - t, n);
    DotScale(p1, t, n);
    LinearCombination(Dot(p0, n), Dot(p1, n), t,
      Dot(Scale(p0, 1.0 - t), n), Dot(Scale(p1, t), n));
  }

  lemma LinearCombination(a: real, b: real, t: real, du: real, dv: real)
    requires du == (1.0 - t) * a && dv == t * b
    ensures du + dv == ScalarLinterp(a, b, t)
  {
  }

  /** `linspace`: `n` values evenly spaced from `min` to `max`, both included. */
  function Linspace(min: real, max: real, n: nat): (r: seq<real>)
    requires n != 1
    ensures |r| == n
  {
    seq(n, i requires 0 <= i < n =>
      var f := (i as real) / ((n - 1) as real);
      (1.0 - f) * min + f * max)
  }

  lemma LinspaceEnds(min: real, max: real, n: nat)
    requires n >= 2
    ensures Linspace(min, max, n)[0] == min
    ensures Linspace(min, max, n)[n - 1] == max
  {
  }

  /** The values `test_linspace` expects for nine points over `[-2.5, 2.5]`. */
  lemma LinspaceNinePoints()
    ensures Linspace(-2.5, 2.5, 9) == [-2.5, -1.875, -1.25, -0.625, 0.0, 0.625, 1.25, 1.875, 2.5]
  {
    var r := Linspace(-2.5, 2.5, 9);
    assert r[1] == -1.875 && r[2] == -1.25 && r[3] == -0.625 && r[4] == 0.0;
    assert r[5] == 0.625 && r[6] == 1.25 && r[7] == 1.875;
  }

  /** The fold `vlist.iter().fold(V::zero(), |sum, val| sum + *val)`. */
  function Sum(vlist: seq<Vector>, dim: nat): (s: Vector)
    requires forall k :: 0 <= k < |vlist| ==> |vlist[k]| == dim
    ensures |s| == dim
  {
    if |vlist| == 0 then Zero(dim) else Add(Sum(vlist[..|vlist| - 1], dim), vlist[|vlist| - 1])
  }

  /** `barycenter`: the sum of the vectors divided by their count. */
  function Barycenter(vlist: seq<Vector>, dim: nat): (c: Vector)
    requires |vlist| > 0
    requires forall k :: 0 <= k < |vlist| ==> |vlist[k]| == dim
    ensures |c| == dim
  {
    Div(Sum(vlist, dim), |vlist| as real)
  }

  lemma {:induction false} DotSum(vlist: seq<Vector>, dim: nat, n: Vector)
    requires forall k :: 0 <= k < |vlist| ==> |vlist[k]| == dim
    requires |n| == dim
    ensures Dot(Sum(vlist, dim), n) == SumDots(vlist, n)
  {
    if |vlist| == 0 {
      DotZero(dim, n);
    } else {
      var init := vlist[..|vlist| - 1];
      DotSum(init, dim, n);
      DotAdd(Sum(init, dim), vlist[|vlist| - 1], n);
    }
  }

  function SumDots(vlist: seq<Vector>, n: Vector): real
  {
    if |vlist| == 0 then 0.0 else SumDots(vlist[..|vlist| - 1], n) + Dot(vlist[|vlist| - 1], n)
  }

  lemma {:induction false} DotDiv(u: Vector, s: real, w: Vector)
    requires |u| == |w| && s != 0.0
    ensures Dot(Div(u, s), w) == Dot(u, w) / s
  {
    if |u| != 0 {
      assert Div(u, s)[1..] == Div(u[1..], s);
      DotDiv(u[1..], s, w[1..]);
      assert u[0] / s * w[0] == u[0] * w[0] / s;
    }
  }

  lemma {:induction false} SumDotsConstant(vlist: seq<Vector>, n: Vector, c: real)
    requires forall k :: 0 <= k < |vlist| ==> Dot(vlist[k], n) == c
    ensures SumDots(vlist, n) == (|vlist| as real) * c
  {
    if |vlist| != 0 {
      SumDotsConstant(vlist[..|vlist| - 1], n, c);
    }
  }

  /**
   * The barycenter of points that all lie on the hyperplane `dot(x, n) == c` lies on it too:
   * this is why `Face::new` can take the face plane's threshold from the face center.
   */
  lemma {:induction false} BarycenterOnPlane(vlist: seq<Vector>, dim: nat, n: Vector, c: real)
    requires |vlist| > 0 && |n| == dim
    requires forall k :: 0 <= k < |vlist| ==> |vlist[k]| == dim
    requires forall k :: 0 <= k < |vlist| ==> Dot(vlist[k], n) == c
    ensures Dot(Barycenter(vlist, dim), n) == c
  {
    var m := |vlist| as real;
    var s := Sum(vlist, dim);
    assert Barycenter(vlist, dim) == Div(s, m);
    DotDiv(s, m, n);
    DotSum(vlist, dim, n);
    SumDotsConstant(vlist, n, c);
    assert Dot(s, n) == m * c;
    MulDivCancel(c, m);
  }

  lemma MulDivCancel(x: real, m: real)
    requires m != 0.0
    ensures m * x / m == x
  {
  }

  /** Componentwise, the barycenter is the average of that component, as `test_barycenter` checks. */
  lemma {:induction false} BarycenterComponent(vlist: seq<Vector>, dim: nat, i: nat)
    requires |vlist| > 0 && i < dim
    requires forall k :: 0 <= k < |vlist| ==> |vlist[k]| == dim
    ensures Barycenter(vlist, dim)[i] == SumDots(vlist, OneHot(dim, i)) / (|vlist| as real)
  {
    var e := OneHot(dim, i);
    DotSum(vlist, dim, e);
    DotOneHot(Sum(vlist, dim), dim, i);
  }

  lemma {:induction false} DotOneHot(u: Vector, dim: nat, i: nat)
    requires |u| == dim && i < dim
    ensures Dot(u, OneHot(dim, i)) == u[i]
  {
    var e := OneHot(dim, i);
    assert Dot(u, e) == u[0] * e[0] + Dot(u[1..], e[1..]);
    if i == 0 {
      assert e[1..] == Zero(dim - 1);
      DotZero(dim - 1, u[1..]);
      DotSymmetric(u[1..], Zero(dim - 1));
      assert e[0] == 1.0;
    } else {
      assert e[1..] == OneHot(dim - 1, i - 1);
      DotOneHot(u[1..], dim - 1, i - 1);
      assert e[0] == 0.0;
    }
  }

  lemma {:induction false} DotSelfNonnegative(v: Vector)
    ensures Dot(v, v) >= 0.0
  {
    if |v| != 0 {
      DotSelfNonnegative(v[1..]);
      assert v[0] * v[0] >= 0.0;
    }
  }

  /** The squared length of `v0 + dv*t`, expanded as a quadratic in `t`. */
  lemma DotOffsetSelf(v0: Vector, dv: Vector, t: real)
    requires |v0| == |dv|
    ensures Dot(Add(v0, Scale(dv, t)), Add(v0, Scale(dv, t)))
      == Quadratic(Dot(v0, v0), Dot(v0, dv), Dot(dv, dv), t)
  {
    var p := Add(v0, Scale(dv, t));
    DotOffset(v0, dv, t, p);
    DotOffset(v0, dv, t, v0);
    DotOffset(v0, dv, t, dv);
    DotSymmetric(v0, p);
    DotSymmetric(dv, p);
    DotSymmetric(dv, v0);
    QuadraticExpansion(Dot(v0, v0), Dot(v0, dv), Dot(dv, v0), Dot(dv, dv), t,
      Dot(p, v0), Dot(v0, p), Dot(p, dv), Dot(dv, p), Dot(p, p));
  }

  /** The dot product with an offset point `v0 + dv*t` is linear in `t`. */
  lemma DotOffset(v0: Vector, dv: Vector, t: real, w: Vector)
    requires |v0| == |dv| == |w|
    ensures Dot(Add(v0, Scale(dv, t)), w) == Dot(v0, w) + Mul(t, Dot(dv, w))
  {
    DotAdd(v0, Scale(dv, t), w);
    DotScale(dv, t, w);
  }

  /** `vv + 2 t vd + t^2 dd`: the squared length of `v0 + dv*t` in terms of its dot products. */
  function Quadratic(vv: real, vd: real, dd: real, t: real): real
  {
    vv + 2.0 * t * vd + t * t * dd
  }

  lemma QuadraticExpansion(vv: real, vd: real, dv: real, dd: real, t: real,
                           pv: real, vp: real, pd: real, dp: real, pp: real)
    requires pv == vv + Mul(t, dv) && dv == vd && pv == vp
    requires pd == vd + Mul(t, dd) && pd == dp
    requires pp == vp + Mul(t, dp)
    ensures pp == Quadratic(vv, vd, dd, t)
  {
  }

  /** A product, named so that equal factors give equal products without arithmetic. */
  function Mul(a: real, b: real): real { a * b }

  /**
   * What the model assumes of the square root the source takes with `sqrt`: on a non-negative
   * argument it returns the non-negative root.
   */
  ghost predicate IsSqrt(sqrt: real -> real)
  {
    forall x :: 0.0 <= x ==> 0.0 <= sqrt(x) && sqrt(x) * sqrt(x) == x
  }

  /** `norm`: the length of `v`. */
  function Norm(v: Vector, sqrt: real -> real): (n: real)
    requires IsSqrt(sqrt)
    ensures 0.0 <= n && n * n == Dot(v, v)
  {
    DotSelfNonnegative(v);
    sqrt(Dot(v, v))
  }

  /** `normalize`: `v` divided by its norm, a unit vector; the source divides by zero for a zero vector. */
  function Normalize(v: Vector, sqrt: real -> real): (u: Vector)
    requires IsSqrt(sqrt) && Dot(v, v) > 0.0
    ensures |u| == |v| && Dot(u, u) == 1.0
  {
    var n := Norm(v, sqrt);
    var u := Div(v, n);
    DotDiv(v, n, u);
    DotSymmetric(v, u);
    DotDiv(v, n, v);
    assert Dot(u, u) == (n * n / n) / n;
    assert n * n / n == n;
    assert n / n == 1.0;
    u
  }
}
