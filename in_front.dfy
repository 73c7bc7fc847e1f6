/**
 * Which shape is in front of which (`src/draw/clipping.rs`). Two shapes are compared first by
 * their bounding balls as seen from the camera (`dynamic_separate`); when that is inconclusive a
 * static separating slab between their vertex sets is computed once, cached per pair, and
 * evaluated at the camera position (`Separator::apply`). The outcome decides, for each shape of
 * the pair, whether the other one is kept in its `in_front` set.
 */
module InFront {
  import opened Vectors
  import opened Geometry
  import Utils
  import opened Matrices

  /** `Separation`: the outcome of comparing two shapes from the camera. */
  datatype Separation = Unknown | NoFront | S1Front | S2Front

  /** `Separator`: none found, or a slab `thresh_min <= dot(_, normal) <= thresh_max`. */
  datatype Separator =
    | NoSeparator
    | Normal(normal: Vector, threshMin: real, threshMax: real, invert: bool)

  /** The same outcome with the roles of the two shapes exchanged. */
  function Swap(s: Separation): Separation
  {
    match s
    case S1Front => S2Front
    case S2Front => S1Front
    case other => other
  }

  /** Exchanging twice restores the outcome, and only the two front outcomes change. */
  lemma SwapInvolution(s: Separation)
    ensures Swap(Swap(s)) == s
    ensures Swap(s) == s <==> s == Unknown || s == NoFront
  {
  }

  /** `Separator::apply`: where the camera lies relative to the slab. */
  function Apply(sep: Separator, origin: Vector): Separation
  {
    match sep
    case NoSeparator => Unknown
    case Normal(normal, threshMin, threshMax, invert) =>
      var dotVal := Dot(origin, normal);
      if dotVal < threshMin then (if invert then S2Front else S1Front)
      else if dotVal > threshMax then (if invert then S1Front else S2Front)
      else NoFront
  }

  /**
   * The cases of `Separator::apply`: no separator gives Unknown; a camera below the slab gives
   * S1Front (S2Front when inverted); above it S2Front (S1Front when inverted); inside it NoFront.
   * A slab never yields Unknown.
   */
  lemma ApplyCases(sep: Separator, origin: Vector)
    ensures sep.NoSeparator? <==> Apply(sep, origin) == Unknown
    ensures sep.Normal? && Dot(origin, sep.normal) < sep.threshMin ==>
      Apply(sep, origin) == (if sep.invert then S2Front else S1Front)
    ensures sep.Normal? && sep.threshMin <= Dot(origin, sep.normal) && Dot(origin, sep.normal) > sep.threshMax ==>
      Apply(sep, origin) == (if sep.invert then S1Front else S2Front)
    ensures sep.Normal? ==>
      (Apply(sep, origin) == NoFront <==> sep.threshMin <= Dot(origin, sep.normal) <= sep.threshMax)
  {
  }

  /** Flipping `invert` exchanges the roles of the two shapes and nothing else. */
  lemma ApplyInvert(normal: Vector, threshMin: real, threshMax: real, invert: bool, origin: Vector)
    ensures Apply(Normal(normal, threshMin, threshMax, !invert), origin)
      == Swap(Apply(Normal(normal, threshMin, threshMax, invert), origin))
  {
  }

  // ---------------------------------------------------------------------------------------------
  // dynamic_separate

  /** `BBall`: a bounding ball of a shape. */
  datatype BBall = BBall(pos: Vector, radius: real)

  /**
   * The last steps of `dynamic_separate`, on the numbers it has computed: `adj` is the camera's
   * offset along the centre line from the ball's similitude centre, `[neg, pos]` the range of
   * that offset in which the camera sees neither ball in front, `hyp2` the squared distance of
   * the camera from the similitude centre and `rcone` the sine of the tangent cone's half-angle.
   */
  function ConeSeparation(adj: real, neg: real, pos: real, hyp2: real, rcone: real): Separation
  {
    if adj >= neg && adj <= pos then NoFront
    else
      var opp2 := hyp2 - adj * adj;
      if opp2 >= hyp2 * rcone * rcone then NoFront
      else if adj > 0.0 then S2Front
      else S1Front
  }

  /**
   * `dynamic_separate`: overlapping balls give Unknown; otherwise the camera is checked against
   * the slab between the balls and then against the cone of lines tangent to both balls.
   * Bounding-ball radii are positive (a ball about at least one vertex away from its centre).
   */
  function DynamicSeparate(b1: BBall, b2: BBall, origin: Vector, sqrt: real -> real): Separation
    requires IsSqrt(sqrt)
    requires b1.radius > 0.0 && b2.radius > 0.0
  {
    var normal := Sub(b1.pos, b2.pos);
    var d := Norm(normal, sqrt);
    var r1, r2 := b1.radius, b2.radius;
    if d <= r1 + r2 then Unknown
    else
      var dist1 := Dist1(d, r1, r2);
      var reg1 := Sub(origin, SimilitudeCenter(b1, b2));
      var adj := Dot(reg1, normal) / d;
      ConeSeparation(adj, r1 - dist1, d - r2 - dist1, Dot(reg1, reg1), r1 / dist1)
  }

  /** `d * ratio`: the distance from the first centre to the similitude centre. */
  function Dist1(d: real, r1: real, r2: real): (dist1: real)
    requires r1 > 0.0 && r2 > 0.0 && d > r1 + r2
    ensures dist1 > 0.0
  {
    PositiveProduct(d, r1 / (r1 + r2));
    d * (r1 / (r1 + r2))
  }

  /** `pos1 - (pos1 - pos2) * r1 / (r1 + r2)`: the point dividing the centre line in ratio r1 : r2. */
  function SimilitudeCenter(b1: BBall, b2: BBall): Vector
    requires b1.radius > 0.0 && b2.radius > 0.0
  {
    Sub(b1.pos, Scale(Sub(b1.pos, b2.pos), b1.radius / (b1.radius + b2.radius)))
  }

  lemma PositiveProduct(x: real, y: real)
    requires x > 0.0 && y > 0.0
    ensures x * y > 0.0
  {
  }

  /** Balls that touch or overlap cannot be told apart; separate balls always get a verdict. */
  lemma DynamicSeparateOverlap(b1: BBall, b2: BBall, origin: Vector, sqrt: real -> real)
    requires IsSqrt(sqrt)
    requires b1.radius > 0.0 && b2.radius > 0.0
    ensures DynamicSeparate(b1, b2, origin, sqrt) == Unknown
      <==> Norm(Sub(b1.pos, b2.pos), sqrt) <= b1.radius + b2.radius
  {
  }

  /**
   * `dynamic_separate` does not depend on the order of its arguments: exchanging the balls
   * exchanges S1Front and S2Front and keeps every other outcome.
   */
  lemma DynamicSeparateSymmetric(b1: BBall, b2: BBall, origin: Vector, sqrt: real -> real)
    requires IsSqrt(sqrt)
    requires b1.radius > 0.0 && b2.radius > 0.0
    requires |b1.pos| == |b2.pos| == |origin|
    ensures DynamicSeparate(b2, b1, origin, sqrt) == Swap(DynamicSeparate(b1, b2, origin, sqrt))
  {
    var normal := Sub(b1.pos, b2.pos);
    var d := Norm(normal, sqrt);
    var r1, r2 := b1.radius, b2.radius;
    CenterDistanceSymmetric(b1, b2, sqrt);
    if d > r1 + r2 {
      var reg1 := Sub(origin, SimilitudeCenter(b1, b2));
      var adj := Dot(reg1, normal) / d;
      var dist1, dist1' := Dist1(d, r1, r2), Dist1(d, r2, r1);
      assert DynamicSeparate(b1, b2, origin, sqrt)
        == ConeSeparation(adj, r1 - dist1, d - r2 - dist1, Dot(reg1, reg1), r1 / dist1);
      AdjSymmetric(b1, b2, origin, d);
      assert DynamicSeparate(b2, b1, origin, sqrt)
        == ConeSeparation(-adj, r2 - dist1', d - r1 - dist1', Dot(reg1, reg1), r2 / dist1');
      RatioIdentities(d, r1, r2);
      ConeSeparationAntisymmetric(adj, r1 - dist1, d - r2 - dist1, Dot(reg1, reg1), r1 / dist1);
    }
  }

  /** The distance between the centres does not depend on their order. */
  lemma CenterDistanceSymmetric(b1: BBall, b2: BBall, sqrt: real -> real)
    requires IsSqrt(sqrt)
    requires |b1.pos| == |b2.pos|
    ensures Norm(Sub(b2.pos, b1.pos), sqrt) == Norm(Sub(b1.pos, b2.pos), sqrt)
  {
    assert Sub(b2.pos, b1.pos) == Neg(Sub(b1.pos, b2.pos));
    NormNeg(Sub(b1.pos, b2.pos), sqrt);
  }

  /** Seen from the other ball, the camera's offset along the centre line changes sign. */
  lemma AdjSymmetric(b1: BBall, b2: BBall, origin: Vector, d: real)
    requires b1.radius > 0.0 && b2.radius > 0.0 && d != 0.0
    requires |b1.pos| == |b2.pos| == |origin|
    ensures SimilitudeCenter(b2, b1) == SimilitudeCenter(b1, b2)
    ensures var reg1 := Sub(origin, SimilitudeCenter(b1, b2));
      Dot(reg1, Sub(b2.pos, b1.pos)) / d == -(Dot(reg1, Sub(b1.pos, b2.pos)) / d)
  {
    SimilitudeCenterSymmetric(b1, b2);
    var normal := Sub(b1.pos, b2.pos);
    var reg1 := Sub(origin, SimilitudeCenter(b1, b2));
    assert Sub(b2.pos, b1.pos) == Neg(normal);
    DotNegRight(reg1, normal);
    NegDiv(Dot(reg1, normal), d);
  }

  lemma DotNegRight(u: Vector, v: Vector)
    requires |u| == |v|
    ensures Dot(u, Neg(v)) == -Dot(u, v)
  {
    DotNeg(v, u);
    DotSymmetric(u, Neg(v));
    DotSymmetric(u, v);
  }

  lemma NegDiv(x: real, d: real)
    requires d != 0.0
    ensures (-x) / d == -(x / d)
  {
  }

  /** Negating a vector keeps its norm. */
  lemma NormNeg(v: Vector, sqrt: real -> real)
    requires IsSqrt(sqrt)
    ensures Norm(Neg(v), sqrt) == Norm(v, sqrt)
  {
    DotNeg(v, Neg(v));
    DotSymmetric(v, Neg(v));
    DotNeg(v, v);
    NonnegativeRootUnique(Norm(Neg(v), sqrt), Norm(v, sqrt));
  }

  lemma NonnegativeRootUnique(x: real, y: real)
    requires x >= 0.0 && y >= 0.0 && x * x == y * y
    ensures x == y
  {
    assert (y - x) * (y + x) == y * y - x * x;
    if x < y {
      PositiveProduct(y - x, y + x);
    } else if y < x {
      PositiveProduct(x - y, x + y);
    }
  }

  /** The similitude centre is the same point from either ball. */
  lemma SimilitudeCenterSymmetric(b1: BBall, b2: BBall)
    requires b1.radius > 0.0 && b2.radius > 0.0
    requires |b1.pos| == |b2.pos|
    ensures SimilitudeCenter(b2, b1) == SimilitudeCenter(b1, b2)
  {
    var c1, c2 := SimilitudeCenter(b1, b2), SimilitudeCenter(b2, b1);
    forall i | 0 <= i < |b1.pos| ensures c2[i] == c1[i] {
      CenterComponent(b1.pos[i], b2.pos[i], b1.radius, b2.radius);
    }
  }

  lemma CenterComponent(x1: real, x2: real, r1: real, r2: real)
    requires r1 > 0.0 && r2 > 0.0
    ensures x2 - (x2 - x1) * (r2 / (r2 + r1)) == x1 - (x1 - x2) * (r1 / (r1 + r2))
  {
    var s := r1 + r2;
    assert r1 / s + r2 / s == 1.0;
    assert r2 + r1 == s;
    calc {
      x2 - (x2 - x1) * (r2 / s);
      x2 * (r1 / s + r2 / s) - x2 * (r2 / s) + x1 * (r2 / s);
      x2 * (r1 / s) + x1 * (r2 / s);
      x1 * (r1 / s + r2 / s) - x1 * (r1 / s) + x2 * (r1 / s);
      x1 - (x1 - x2) * (r1 / s);
    }
  }

  /**
   * For `d > r1 + r2` the quantities of `dynamic_separate` seen from the other ball: its
   * range `[neg', pos']` is `[-pos, -neg]` and its cone ratio is the same; and `neg < 0 < pos`.
   */
  lemma RatioIdentities(d: real, r1: real, r2: real)
    requires r1 > 0.0 && r2 > 0.0 && d > r1 + r2
    ensures var s1, s2 := Dist1(d, r1, r2), Dist1(d, r2, r1);
      && r2 - s2 == -(d - r2 - s1)
      && d - r1 - s2 == -(r1 - s1)
      && r2 / s2 == r1 / s1
      && r1 - s1 < 0.0 < d - r2 - s1
  {
    var s := r1 + r2;
    assert r2 + r1 == s;
    var s1, s2 := Dist1(d, r1, r2), Dist1(d, r2, r1);
    assert r1 / s + r2 / s == 1.0;
    assert s1 + s2 == d by {
      assert s1 + s2 == d * (r1 / s + r2 / s);
    }
    var q := d / s;
    assert (q - 1.0) * s == d - s;
    FactorPositive(q - 1.0, s);
    assert s1 == r1 * q && s2 == r2 * q;
    assert r1 / s1 == 1.0 / q && r2 / s2 == 1.0 / q;
    assert r1 - s1 == r1 * (1.0 - q);
    PositiveProduct(r1, q - 1.0);
    assert d - r2 - s1 == r2 * (q - 1.0);
    PositiveProduct(r2, q - 1.0);
  }

  lemma FactorPositive(x: real, y: real)
    requires x * y > 0.0 && y > 0.0
    ensures x > 0.0
  {
  }

  /** The final tests read from the other ball: the slab is mirrored and `adj` changes sign. */
  lemma ConeSeparationAntisymmetric(adj: real, neg: real, pos: real, hyp2: real, rcone: real)
    requires neg < 0.0 < pos
    ensures ConeSeparation(-adj, -pos, -neg, hyp2, rcone) == Swap(ConeSeparation(adj, neg, pos, hyp2, rcone))
  {
    assert (-adj) * (-adj) == adj * adj;
  }

  // ---------------------------------------------------------------------------------------------
  // normal_separate and separate_between_centers

  /** The half-width of the tolerated overlap of two vertex ranges. */
  const OVERLAP: real := 0.000001

  /**
   * `normal_separate`: project both vertex sets on `normal`; if the second lies after the first
   * (up to OVERLAP) the slab between them is returned inverted, if the first lies after the
   * second it is returned plainly, and otherwise no separator. An empty vertex set makes the
   * source's NaN-seeded folds fail both comparisons, so it gives no separator.
   */
  function NormalSeparate(verts1: seq<Vector>, verts2: seq<Vector>, normal: Vector): Separator
  {
    var proj1, proj2 := MatVec(verts1, normal), MatVec(verts2, normal);
    match (Utils.PartialMin(proj1), Utils.PartialMax(proj1), Utils.PartialMin(proj2), Utils.PartialMax(proj2))
    case (Some(nmin1), Some(nmax1), Some(nmin2), Some(nmax2)) =>
      if nmin2 - nmax1 >= -OVERLAP then Normal(normal, nmax1, nmin2, true)
      else if nmin1 - nmax2 >= -OVERLAP then Normal(normal, nmax2, nmin1, false)
      else NoSeparator
    case _ => NoSeparator
  }

  /** Every vertex projects at or below `lo` or at or above `hi`, as named. */
  predicate Below(verts: seq<Vector>, normal: Vector, lo: real)
  {
    forall i :: 0 <= i < |verts| ==> Dot(verts[i], normal) <= lo
  }

  predicate Above(verts: seq<Vector>, normal: Vector, hi: real)
  {
    forall i :: 0 <= i < |verts| ==> hi <= Dot(verts[i], normal)
  }

  /**
   * A separator from `normal_separate` is a slab of width at least -OVERLAP between the two
   * vertex sets: inverted, the first set is below `thresh_min` and the second above
   * `thresh_max`; plain, the other way round. Both thresholds are attained by a vertex.
   */
  lemma NormalSeparateSlab(verts1: seq<Vector>, verts2: seq<Vector>, normal: Vector)
    ensures var sep := NormalSeparate(verts1, verts2, normal);
      sep.Normal? ==>
        && sep.normal == normal
        && sep.threshMax - sep.threshMin >= -OVERLAP
        && (sep.invert ==> Below(verts1, normal, sep.threshMin) && Above(verts2, normal, sep.threshMax))
        && (!sep.invert ==> Below(verts2, normal, sep.threshMin) && Above(verts1, normal, sep.threshMax))
        && (exists i :: 0 <= i < |verts1| && Dot(verts1[i], normal) in {sep.threshMin, sep.threshMax})
        && (exists i :: 0 <= i < |verts2| && Dot(verts2[i], normal) in {sep.threshMin, sep.threshMax})
  {
    var proj1, proj2 := MatVec(verts1, normal), MatVec(verts2, normal);
    if |verts1| > 0 && |verts2| > 0 {
      Utils.PartialMinIsMinimum(proj1);
      Utils.PartialMaxIsMaximum(proj1);
      Utils.PartialMinIsMinimum(proj2);
      Utils.PartialMaxIsMaximum(proj2);
      var sep := NormalSeparate(verts1, verts2, normal);
      if sep.Normal? {
        var i1 :| 0 <= i1 < |proj1| && proj1[i1] == (if sep.invert then sep.threshMin else sep.threshMax);
        var i2 :| 0 <= i2 < |proj2| && proj2[i2] == (if sep.invert then sep.threshMax else sep.threshMin);
        assert Dot(verts1[i1], normal) in {sep.threshMin, sep.threshMax};
        assert Dot(verts2[i2], normal) in {sep.threshMin, sep.threshMax};
        forall i | 0 <= i < |verts1|
          ensures Utils.PartialMin(proj1).value <= Dot(verts1[i], normal) <= Utils.PartialMax(proj1).value
        {
          assert proj1[i] in proj1;
        }
        forall i | 0 <= i < |verts2|
          ensures Utils.PartialMin(proj2).value <= Dot(verts2[i], normal) <= Utils.PartialMax(proj2).value
        {
          assert proj2[i] in proj2;
        }
      }
    }
  }

  /**
   * Conversely, if some level `c` has the first vertex set at or below it and the second at or
   * above it, `normal_separate` finds an inverted separator.
   */
  lemma NormalSeparateFindsSlab(verts1: seq<Vector>, verts2: seq<Vector>, normal: Vector, c: real)
    requires |verts1| > 0 && |verts2| > 0
    requires Below(verts1, normal, c) && Above(verts2, normal, c)
    ensures NormalSeparate(verts1, verts2, normal).Normal?
    ensures NormalSeparate(verts1, verts2, normal).invert
  {
    var proj1, proj2 := MatVec(verts1, normal), MatVec(verts2, normal);
    Utils.PartialMinIsMinimum(proj1);
    Utils.PartialMaxIsMaximum(proj1);
    Utils.PartialMinIsMinimum(proj2);
    Utils.PartialMaxIsMaximum(proj2);
  }

  /** `InFrontArg`: the entity, the vertices of its shape and its bounding ball. */
  datatype InFrontArg = InFrontArg(verts: seq<Vector>, bball: BBall, entity: nat)

  /** Below this squared distance the two centres are treated as coincident. */
  const CENTER_EPSILON: real := 0.000001

  /**
   * `separate_between_centers`: `normal_separate` along the line from the first centre to the
   * second, or no separator when the centres (nearly) coincide.
   */
  function SeparateBetweenCenters(a: InFrontArg, b: InFrontArg): (sep: Separator)
    ensures sep.Normal? ==> sep.normal == Sub(b.bball.pos, a.bball.pos)
    ensures Dot(Sub(b.bball.pos, a.bball.pos), Sub(b.bball.pos, a.bball.pos)) <= CENTER_EPSILON
      ==> sep == NoSeparator
  {
    var normal := Sub(b.bball.pos, a.bball.pos);
    if Dot(normal, normal) > CENTER_EPSILON then
      NormalSeparateSlab(a.verts, b.verts, normal);
      NormalSeparate(a.verts, b.verts, normal)
    else NoSeparator
  }

  // ---------------------------------------------------------------------------------------------
  // ShapeClipState and calc_in_front_pair

  /** `ShapeClipState`: per-shape clipping state. Entities are numbered. */
  class ShapeClipState {
    /** The entities whose shapes may hide this one. */
    var inFront: set<nat>
    /** Cached static separators from this shape to others. */
    var separators: map<nat, Separator>
    var boundaries: seq<seq<Plane>>
    var transparent: bool
    var faceVisibility: seq<bool>

    /** `ShapeClipState::default`. */
    constructor ()
      ensures inFront == {} && separators == map[] && boundaries == []
      ensures !transparent && faceVisibility == []
    {
      inFront := {};
      separators := map[];
      boundaries := [];
      transparent := false;
      faceVisibility := [];
    }

    /** `ShapeClipState::remove`: forget entity `e`. */
    method Remove(e: nat)
      modifies this
      ensures inFront == old(inFront) - {e}
      ensures separators == old(separators) - {e}
      ensures boundaries == old(boundaries) && transparent == old(transparent)
      ensures faceVisibility == old(faceVisibility)
    {
      inFront := inFront - {e};
      separators := separators - {e};
    }
  }

  /**
   * The separation `calc_in_front_pair` settles on: the dynamic one, or, when that is Unknown,
   * the cached static separator of the pair (computed now if absent) applied at the camera.
   */
  function PairSeparation(a: InFrontArg, b: InFrontArg, cache: map<nat, Separator>, origin: Vector,
                          sqrt: real -> real): Separation
    requires IsSqrt(sqrt) && a.bball.radius > 0.0 && b.bball.radius > 0.0
  {
    var dynamic := DynamicSeparate(a.bball, b.bball, origin, sqrt);
    if dynamic != Unknown then dynamic
    else Apply(if b.entity in cache then cache[b.entity] else SeparateBetweenCenters(a, b), origin)
  }

  /** The separator cache of the first shape after the pair is processed. */
  function PairCache(a: InFrontArg, b: InFrontArg, cache: map<nat, Separator>, origin: Vector,
                     sqrt: real -> real): (r: map<nat, Separator>)
    requires IsSqrt(sqrt) && a.bball.radius > 0.0 && b.bball.radius > 0.0
    ensures b.entity in cache ==> r == cache
    ensures forall e :: e in cache ==> e in r && r[e] == cache[e]
  {
    if DynamicSeparate(a.bball, b.bball, origin, sqrt) == Unknown && b.entity !in cache then
      cache[b.entity := SeparateBetweenCenters(a, b)]
    else cache
  }

  /** `new_vals`: whether the first shape keeps the second in front of it, and vice versa. */
  function InFrontFlags(s: Separation): (bool, bool)
  {
    match s
    case S1Front => (true, false)
    case S2Front => (false, true)
    case NoFront => (false, false)
    case Unknown => (true, true)
  }

  /**
   * The flags are conservative: both shapes stay in front of each other exactly when the
   * separation is Unknown, neither when NoFront; exchanging the shapes exchanges the flags.
   */
  lemma InFrontFlagsCases(s: Separation)
    ensures InFrontFlags(s).0 && InFrontFlags(s).1 <==> s == Unknown
    ensures !InFrontFlags(s).0 && !InFrontFlags(s).1 <==> s == NoFront
    ensures InFrontFlags(Swap(s)) == (InFrontFlags(s).1, InFrontFlags(s).0)
  {
  }

  function SetMember(s: set<nat>, e: nat, member: bool): (r: set<nat>)
    ensures e in r <==> member
    ensures forall x :: x != e ==> (x in r <==> x in s)
  {
    if member then s + {e} else s - {e}
  }

  /**
   * `calc_in_front_pair`: settle the separation of shapes `a` and `b` and record it. The
   * separator of the pair is cached in `a`'s state; `b` is kept in `a`'s `in_front` set by the
   * first flag and `a` in `b`'s by the second. The two states belong to different entities.
   */
  method CalcInFrontPair(a: InFrontArg, b: InFrontArg, stateA: ShapeClipState, stateB: ShapeClipState,
                         origin: Vector, sqrt: real -> real)
    requires IsSqrt(sqrt) && a.bball.radius > 0.0 && b.bball.radius > 0.0
    requires stateA != stateB
    modifies stateA, stateB
    ensures var sep := PairSeparation(a, b, old(stateA.separators), origin, sqrt);
      && stateA.inFront == SetMember(old(stateA.inFront), b.entity, InFrontFlags(sep).0)
      && stateB.inFront == SetMember(old(stateB.inFront), a.entity, InFrontFlags(sep).1)
    ensures stateA.separators == PairCache(a, b, old(stateA.separators), origin, sqrt)
    ensures stateB.separators == old(stateB.separators)
    ensures stateA.boundaries == old(stateA.boundaries) && stateB.boundaries == old(stateB.boundaries)
    ensures stateA.transparent == old(stateA.transparent) && stateB.transparent == old(stateB.transparent)
    ensures stateA.faceVisibility == old(stateA.faceVisibility)
    ensures stateB.faceVisibility == old(stateB.faceVisibility)
  {
    var sepState := DynamicSeparate(a.bball, b.bball, origin, sqrt);
    if sepState == Unknown {
      var sep: Separator;
      if b.entity in stateA.separators {
        sep := stateA.separators[b.entity];
      } else {
        sep := SeparateBetweenCenters(a, b);
        stateA.separators := stateA.separators[b.entity := sep];
      }
      sepState := Apply(sep, origin);
    }
    var newVals := InFrontFlags(sepState);
    if newVals.0 {
      stateA.inFront := stateA.inFront + {b.entity};
    } else {
      stateA.inFront := stateA.inFront - {b.entity};
    }
    if newVals.1 {
      stateB.inFront := stateB.inFront + {a.entity};
    } else {
      stateB.inFront := stateB.inFront - {a.entity};
    }
  }

  /**
   * Processing a pair twice is the same as once: the cached separator reproduces the
   * separation, so the second pass sets the same flags and leaves the cache alone.
   */
  lemma CalcInFrontPairIdempotent(a: InFrontArg, b: InFrontArg, cache: map<nat, Separator>, origin: Vector,
                                  sqrt: real -> real)
    requires IsSqrt(sqrt) && a.bball.radius > 0.0 && b.bball.radius > 0.0
    ensures var cache' := PairCache(a, b, cache, origin, sqrt);
      && PairCache(a, b, cache', origin, sqrt) == cache'
      && PairSeparation(a, b, cache', origin, sqrt) == PairSeparation(a, b, cache, origin, sqrt)
  {
  }

  /**
   * When the bounding balls decide, the order of the pair does not matter: processing `(b, a)`
   * gives the flags of `(a, b)` exchanged.
   */
  lemma PairSeparationSymmetric(a: InFrontArg, b: InFrontArg, cacheA: map<nat, Separator>,
                                cacheB: map<nat, Separator>, origin: Vector, sqrt: real -> real)
    requires IsSqrt(sqrt) && a.bball.radius > 0.0 && b.bball.radius > 0.0
    requires |a.bball.pos| == |b.bball.pos| == |origin|
    requires DynamicSeparate(a.bball, b.bball, origin, sqrt) != Unknown
    ensures PairSeparation(b, a, cacheB, origin, sqrt) == Swap(PairSeparation(a, b, cacheA, origin, sqrt))
    ensures InFrontFlags(PairSeparation(b, a, cacheB, origin, sqrt))
      == (InFrontFlags(PairSeparation(a, b, cacheA, origin, sqrt)).1,
          InFrontFlags(PairSeparation(a, b, cacheA, origin, sqrt)).0)
  {
    DynamicSeparateSymmetric(a.bball, b.bball, origin, sqrt);
    InFrontFlagsCases(PairSeparation(a, b, cacheA, origin, sqrt));
  }
}
