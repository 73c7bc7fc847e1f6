/**
 * Collision handling (`src/collide.rs`): the cells a bounding box spans in the spatial hash,
 * bounding boxes of shapes and of the player, and how a planned player move is applied or pushed
 * away from the faces of static shapes.
 */
module Collide {
  import opened Wrappers
  import opened Vectors
  import opened Geometry
  import opened Faces
  import Utils
  import Transforms
  import Cameras

  // ---------------------------------------------------------------------------------------------
  // get_bits, get_dcoords_dcells

  /**
   * Bit `k` of `n`, `n.rotate_right(k) % 2` for `k` below the integer width: shift right `k`
   * times, then take the lowest bit.
   */
  function Bit(n: nat, k: nat): (r: nat)
    ensures r <= 1
  {
    if k == 0 then n % 2 else Bit(n / 2, k - 1)
  }

  /** `get_bits(n, n_bits)`: the lowest `n_bits` bits of `n`, least significant first. */
  function GetBits(n: nat, nBits: nat): (r: seq<nat>)
    ensures |r| == nBits && forall k :: 0 <= k < nBits ==> r[k] == Bit(n, k) && r[k] <= 1
  {
    seq(nBits, k requires 0 <= k < nBits => Bit(n, k))
  }

  /** The axes along which the box spans a second cell (`dpos`): the indices holding a 1. */
  function SetAxes(dcoords: seq<nat>): (r: seq<nat>)
    ensures forall b :: 0 <= b < |r| ==> r[b] < |dcoords|
  {
    if |dcoords| == 0 then []
    else SetAxes(dcoords[..|dcoords| - 1]) + (if dcoords[|dcoords| - 1] == 1 then [|dcoords| - 1] else [])
  }

  /** Every entry is 0 or 1. */
  predicate ZeroOne(dcoords: seq<nat>)
  {
    forall i :: 0 <= i < |dcoords| ==> dcoords[i] == 0 || dcoords[i] == 1
  }

  /** `sum_{b < j} bit_b(k) * mult[dpos[b]]`. */
  function CellSum(k: nat, dpos: seq<nat>, mult: seq<nat>, j: nat): nat
    requires j <= |dpos| && forall b :: 0 <= b < |dpos| ==> dpos[b] < |mult|
  {
    if j == 0 then 0 else CellSum(k, dpos, mult, j - 1) + Bit(k, j - 1) * mult[dpos[j - 1]]
  }

  /** What `get_dcoords_dcells` returns: for each `k < 2^box_dim`, the cell picked by the bits of `k`. */
  function DcoordsDcells(dcoords: seq<nat>, mult: seq<nat>): seq<nat>
    requires |dcoords| <= |mult|
  {
    var dpos := SetAxes(dcoords);
    seq(Pow2(|dpos|), k requires 0 <= k < Pow2(|dpos|) => CellSum(k, dpos, mult, |dpos|))
  }

  /** The sum of the entries. */
  function SumNat(s: seq<nat>): nat
  {
    if |s| == 0 then 0 else SumNat(s[..|s| - 1]) + s[|s| - 1]
  }

  /** For 0/1 entries the sum counts the set axes. */
  lemma {:induction false} SumIsSetAxes(dcoords: seq<nat>)
    requires ZeroOne(dcoords)
    ensures SumNat(dcoords) == |SetAxes(dcoords)|
  {
    if |dcoords| > 0 {
      SumIsSetAxes(dcoords[..|dcoords| - 1]);
    }
  }

  /**
   * `get_dcoords_dcells`: the offsets, from the box's lowest cell, of all the cells a box spans
   * when it reaches one cell further along each axis whose entry is 1. Entries must be 0 or 1
   * (the source asserts it).
   */
  method GetDcoordsDcells(dcoords: seq<nat>, mult: seq<nat>) returns (outVec: seq<nat>)
    requires ZeroOne(dcoords) && |dcoords| <= |mult|
    ensures outVec == DcoordsDcells(dcoords, mult)
  {
    var dpos: seq<nat> := [];
    var boxDim: nat := 0;
    for i := 0 to |dcoords|
      invariant dpos == SetAxes(dcoords[..i]) && boxDim == SumNat(dcoords[..i])
    {
      PrefixStep(dcoords, i);
      if dcoords[i] == 1 {
        dpos := dpos + [i];
      }
      boxDim := boxDim + dcoords[i];
    }
    assert dcoords[..|dcoords|] == dcoords;
    SumIsSetAxes(dcoords);
    var kmax := Pow2(boxDim);
    outVec := [];
    for k := 0 to kmax
      invariant |outVec| == k
      invariant forall k' :: 0 <= k' < k ==> outVec[k'] == CellSum(k', dpos, mult, |dpos|)
    {
      var kBits := GetBits(k, boxDim);
      var cell := 0;
      for b := 0 to boxDim
        invariant cell == CellSum(k, dpos, mult, b)
      {
        CellSumStep(k, dpos, mult, b, kBits[b]);
        cell := cell + kBits[b] * mult[dpos[b]];
      }
      outVec := outVec + [cell];
    }
    DcoordsDcellsIs(dcoords, mult, outVec);
  }

  /** The prefix quantities of the first loop of `get_dcoords_dcells`, one entry further. */
  lemma PrefixStep(dcoords: seq<nat>, i: nat)
    requires i < |dcoords|
    ensures SetAxes(dcoords[..i + 1]) == SetAxes(dcoords[..i]) + (if dcoords[i] == 1 then [i] else [])
    ensures SumNat(dcoords[..i + 1]) == SumNat(dcoords[..i]) + dcoords[i]
  {
    assert dcoords[..i + 1][..i] == dcoords[..i];
  }

  /** One more bit of the cell sum, given the bit as the loop reads it. */
  lemma CellSumStep(k: nat, dpos: seq<nat>, mult: seq<nat>, b: nat, bit: nat)
    requires b < |dpos| && (forall j :: 0 <= j < |dpos| ==> dpos[j] < |mult|) && bit == Bit(k, b)
    ensures CellSum(k, dpos, mult, b + 1) == CellSum(k, dpos, mult, b) + bit * mult[dpos[b]]
  {
  }

  /** The list the second loop builds is `DcoordsDcells`. */
  lemma DcoordsDcellsIs(dcoords: seq<nat>, mult: seq<nat>, outVec: seq<nat>)
    requires |dcoords| <= |mult|
    requires |outVec| == Pow2(|SetAxes(dcoords)|)
    requires forall k :: 0 <= k < |outVec| ==> outVec[k] == CellSum(k, SetAxes(dcoords), mult, |SetAxes(dcoords)|)
    ensures outVec == DcoordsDcells(dcoords, mult)
  {
  }

  /** Bit `m` of any number below `2^m` is 0. */
  lemma {:induction false} BitAbove(k: nat, m: nat)
    requires k < Pow2(m)
    ensures Bit(k, m) == 0
  {
    if m > 0 {
      BitAbove(k / 2, m - 1);
    }
  }

  /** Adding `2^m` to a number below `2^m` sets bit `m` and keeps the lower bits. */
  lemma {:induction false} BitsOfHigh(m: nat, k: nat, b: nat)
    requires k < Pow2(m) && b <= m
    ensures Bit(Pow2(m) + k, b) == if b == m then 1 else Bit(k, b)
  {
    if m > 0 && b > 0 {
      assert (Pow2(m) + k) / 2 == Pow2(m - 1) + k / 2;
      BitsOfHigh(m - 1, k / 2, b - 1);
    }
  }

  lemma {:induction false} CellSumAgrees(k1: nat, k2: nat, dpos1: seq<nat>, dpos2: seq<nat>, mult: seq<nat>, j: nat)
    requires j <= |dpos1| && j <= |dpos2| && dpos1[..j] == dpos2[..j]
    requires forall b :: 0 <= b < |dpos1| ==> dpos1[b] < |mult|
    requires forall b :: 0 <= b < |dpos2| ==> dpos2[b] < |mult|
    requires forall b :: 0 <= b < j ==> Bit(k1, b) == Bit(k2, b)
    ensures CellSum(k1, dpos1, mult, j) == CellSum(k2, dpos2, mult, j)
  {
    if j > 0 {
      assert dpos1[..j - 1] == dpos2[..j - 1] && dpos1[j - 1] == dpos1[..j][j - 1];
      CellSumAgrees(k1, k2, dpos1, dpos2, mult, j - 1);
    }
  }

  /** An axis whose entry is 0 adds no cells. */
  lemma DcellsAppendZero(dcoords: seq<nat>, mult: seq<nat>)
    requires |dcoords| < |mult|
    ensures DcoordsDcells(dcoords + [0], mult) == DcoordsDcells(dcoords, mult)
  {
    assert (dcoords + [0])[..|dcoords|] == dcoords;
    assert SetAxes(dcoords + [0]) == SetAxes(dcoords);
  }

  /** A number below `2^m` picks the same cell whether or not a further axis is listed. */
  lemma CellLow(dpos: seq<nat>, d: nat, mult: seq<nat>, k: nat)
    requires d < |mult| && forall b :: 0 <= b < |dpos| ==> dpos[b] < |mult|
    requires k < Pow2(|dpos|)
    ensures CellSum(k, dpos + [d], mult, |dpos| + 1) == CellSum(k, dpos, mult, |dpos|)
  {
    var m := |dpos|;
    assert (dpos + [d])[..m] == dpos[..m];
    BitAbove(k, m);
    CellSumAgrees(k, k, dpos + [d], dpos, mult, m);
  }

  /** Adding `2^m` moves the picked cell one step along the further axis. */
  lemma CellHigh(dpos: seq<nat>, d: nat, mult: seq<nat>, k0: nat)
    requires d < |mult| && forall b :: 0 <= b < |dpos| ==> dpos[b] < |mult|
    requires k0 < Pow2(|dpos|)
    ensures CellSum(Pow2(|dpos|) + k0, dpos + [d], mult, |dpos| + 1) == CellSum(k0, dpos, mult, |dpos|) + mult[d]
  {
    var m := |dpos|;
    assert (dpos + [d])[..m] == dpos[..m];
    forall b | 0 <= b < m
      ensures Bit(Pow2(m) + k0, b) == Bit(k0, b)
    {
      BitsOfHigh(m, k0, b);
    }
    BitsOfHigh(m, k0, m);
    CellSumAgrees(Pow2(m) + k0, k0, dpos + [d], dpos, mult, m);
  }

  /**
   * An axis whose entry is 1 doubles the cells: those of the other axes, followed by the same
   * cells moved one step along the new axis.
   */
  lemma DcellsAppendOne(dcoords: seq<nat>, mult: seq<nat>)
    requires |dcoords| < |mult|
    ensures var cells := DcoordsDcells(dcoords, mult);
      DcoordsDcells(dcoords + [1], mult)
        == cells + seq(|cells|, k requires 0 <= k < |cells| => cells[k] + mult[|dcoords|])
  {
    var dc := dcoords + [1];
    assert dc[..|dcoords|] == dcoords;
    var dpos := SetAxes(dcoords);
    var m := |dpos|;
    assert SetAxes(dc) == dpos + [|dcoords|];
    var cells := DcoordsDcells(dcoords, mult);
    var cells1 := DcoordsDcells(dc, mult);
    var rhs := cells + seq(|cells|, k requires 0 <= k < |cells| => cells[k] + mult[|dcoords|]);
    assert |cells1| == |rhs|;
    forall k | 0 <= k < |cells1|
      ensures cells1[k] == rhs[k]
    {
      if k < Pow2(m) {
        CellLow(dpos, |dcoords|, mult, k);
      } else {
        CellHigh(dpos, |dcoords|, mult, k - Pow2(m));
      }
    }
  }

  /** An unextended box occupies only its own cell. */
  lemma DcellsNone(mult: seq<nat>)
    ensures DcoordsDcells([], mult) == [0]
  {
  }

  /** One step of the test below: extending `dcoords` by an axis with entry 1. */
  lemma DcellsStepOne(dcoords: seq<nat>, cells: seq<nat>, shifted: seq<nat>)
    requires |dcoords| < 3 && DcoordsDcells(dcoords, [1, 2, 4]) == cells
    requires |shifted| == |cells| && forall k :: 0 <= k < |cells| ==> shifted[k] == cells[k] + [1, 2, 4][|dcoords|]
    ensures DcoordsDcells(dcoords + [1], [1, 2, 4]) == cells + shifted
  {
    DcellsAppendOne(dcoords, [1, 2, 4]);
  }

  lemma DcellsFirstAxis()
    ensures DcoordsDcells([1], [1, 2, 4]) == [0, 1]
  {
    DcellsNone([1, 2, 4]);
    assert [] + [1] == [1];
    DcellsStepOne([], [0], [1]);
  }

  lemma DcellsFirstTwoAxes()
    ensures DcoordsDcells([1, 1], [1, 2, 4]) == [0, 1, 2, 3]
  {
    DcellsFirstAxis();
    assert [1] + [1] == [1, 1];
    DcellsStepOne([1], [0, 1], [2, 3]);
  }

  /** The offsets the source's test expects for the multipliers `[1, 2, 4]`, all axes extended. */
  lemma DcoordsDcellsTestAll()
    ensures DcoordsDcells([1, 1, 1], [1, 2, 4]) == [0, 1, 2, 3, 4, 5, 6, 7]
  {
    DcellsFirstTwoAxes();
    assert [1, 1] + [1] == [1, 1, 1];
    DcellsStepOne([1, 1], [0, 1, 2, 3], [4, 5, 6, 7]);
  }

  /** The test's case with no axis extended. */
  lemma DcoordsDcellsTestNone()
    ensures DcoordsDcells([0, 0, 0], [1, 2, 4]) == [0]
  {
    DcellsNone([1, 2, 4]);
    assert [] + [0] == [0];
    DcellsAppendZero([], [1, 2, 4]);
    assert [0] + [0] == [0, 0];
    DcellsAppendZero([0], [1, 2, 4]);
    assert [0, 0] + [0] == [0, 0, 0];
    DcellsAppendZero([0, 0], [1, 2, 4]);
  }

  /** The test's case with the first and last axes extended. */
  lemma DcoordsDcellsTestOuter()
    ensures DcoordsDcells([1, 0, 1], [1, 2, 4]) == [0, 1, 4, 5]
  {
    DcellsNone([1, 2, 4]);
    assert [] + [1] == [1];
    DcellsStepOne([], [0], [1]);
    assert [1] + [0] == [1, 0];
    DcellsAppendZero([1], [1, 2, 4]);
    assert [1, 0] + [1] == [1, 0, 1];
    DcellsStepOne([1, 0], [0, 1], [4, 5]);
  }

  lemma DcellsSecondAxis()
    ensures DcoordsDcells([0, 1], [1, 2, 4]) == [0, 2]
  {
    DcellsNone([1, 2, 4]);
    assert [] + [0] == [0];
    DcellsAppendZero([], [1, 2, 4]);
    assert [0] + [1] == [0, 1];
    DcellsStepOne([0], [0], [2]);
  }

  /** The test's case with the two upper axes extended. */
  lemma DcoordsDcellsTestUpper()
    ensures DcoordsDcells([0, 1, 1], [1, 2, 4]) == [0, 2, 4, 6]
  {
    DcellsSecondAxis();
    assert [0, 1] + [1] == [0, 1, 1];
    DcellsStepOne([0, 1], [0, 2], [4, 6]);
  }

  /** The test's cases with one axis extended, the remaining axes left at 0. */
  lemma DcoordsDcellsTestFirst()
    ensures DcoordsDcells([1, 0, 0], [1, 2, 4]) == [0, 1]
  {
    DcellsFirstAxis();
    assert [1] + [0] == [1, 0];
    DcellsAppendZero([1], [1, 2, 4]);
    assert [1, 0] + [0] == [1, 0, 0];
    DcellsAppendZero([1, 0], [1, 2, 4]);
  }

  lemma DcoordsDcellsTestSecond()
    ensures DcoordsDcells([0, 1, 0], [1, 2, 4]) == [0, 2]
  {
    DcellsSecondAxis();
    assert [0, 1] + [0] == [0, 1, 0];
    DcellsAppendZero([0, 1], [1, 2, 4]);
  }

  lemma DcellsNoLowerAxes()
    ensures DcoordsDcells([0, 0], [1, 2, 4]) == [0]
  {
    DcellsNone([1, 2, 4]);
    assert [] + [0] == [0];
    DcellsAppendZero([], [1, 2, 4]);
    assert [0] + [0] == [0, 0];
    DcellsAppendZero([0], [1, 2, 4]);
  }

  lemma DcoordsDcellsTestThird()
    ensures DcoordsDcells([0, 0, 1], [1, 2, 4]) == [0, 4]
  {
    DcellsNoLowerAxes();
    assert [0, 0] + [1] == [0, 0, 1];
    DcellsStepOne([0, 0], [0], [4]);
  }

  /** The test's case with the two lower axes extended. */
  lemma DcoordsDcellsTestLower()
    ensures DcoordsDcells([1, 1, 0], [1, 2, 4]) == [0, 1, 2, 3]
  {
    DcellsFirstTwoAxes();
    assert [1, 1] + [0] == [1, 1, 0];
    DcellsAppendZero([1, 1], [1, 2, 4]);
  }

  // ---------------------------------------------------------------------------------------------
  // Bounding boxes

  /** `BBox`: an axis-aligned box given by its lowest and highest corners. */
  datatype BBox = BBox(min: Vector, max: Vector)

  /** Every vertex has the same dimension. */
  predicate SameDim(verts: seq<Vector>, dim: nat)
  {
    forall k :: 0 <= k < |verts| ==> |verts[k]| == dim
  }

  /** `point` lies in the box, componentwise. */
  predicate Contains(b: BBox, point: Vector)
  {
    |b.min| == |point| == |b.max|
    && forall j :: 0 <= j < |point| ==> b.min[j] <= point[j] <= b.max[j]
  }

  /** Component `j` of the box is reached by some vertex, at each end. */
  predicate Attained(b: BBox, verts: seq<Vector>, j: nat)
    requires j < |b.min| && j < |b.max| && SameDim(verts, |b.min|)
  {
    (exists k :: 0 <= k < |verts| && b.min[j] == verts[k][j])
    && (exists k :: 0 <= k < |verts| && b.max[j] == verts[k][j])
  }

  /** `Field::min` on components, over the shorter length. */
  function ZipMin(u: Vector, v: Vector): (w: Vector)
    ensures |w| == Min(|u|, |v|)
  {
    seq(Min(|u|, |v|), j requires 0 <= j < Min(|u|, |v|) => if v[j] < u[j] then v[j] else u[j])
  }

  /** `Field::max` on components, over the shorter length. */
  function ZipMax(u: Vector, v: Vector): (w: Vector)
    ensures |w| == Min(|u|, |v|)
  {
    seq(Min(|u|, |v|), j requires 0 <= j < Min(|u|, |v|) => if v[j] > u[j] then v[j] else u[j])
  }

  /**
   * `HasBBox::calc_bbox` for shapes: start from the first vertex and widen the box componentwise
   * by every vertex. Every vertex lies in the result, and each face of the box touches a vertex.
   * The source indexes the first vertex, so a shape needs at least one.
   */
  method CalcBBox(verts: seq<Vector>) returns (b: BBox)
    requires |verts| > 0 && SameDim(verts, |verts[0]|)
    ensures |b.min| == |b.max| == |verts[0]|
    ensures forall k :: 0 <= k < |verts| ==> Contains(b, verts[k])
    ensures forall j :: 0 <= j < |verts[0]| ==> Attained(b, verts, j)
  {
    var dim := |verts[0]|;
    var mn, mx := verts[0], verts[0];
    for i := 0 to |verts|
      invariant |mn| == dim && |mx| == dim
      invariant forall k :: 0 <= k < i ==> Contains(BBox(mn, mx), verts[k])
      invariant forall j :: 0 <= j < dim ==> Attained(BBox(mn, mx), verts, j)
    {
      var v := verts[i];
      var mn', mx' := ZipMin(mn, v), ZipMax(mx, v);
      forall j | 0 <= j < dim
        ensures Attained(BBox(mn', mx'), verts, j)
      {
        assert Attained(BBox(mn, mx), verts, j);
        var kLo :| 0 <= kLo < |verts| && mn[j] == verts[kLo][j];
        var kHi :| 0 <= kHi < |verts| && mx[j] == verts[kHi][j];
        var kLo' := if mn'[j] == v[j] then i else kLo;
        var kHi' := if mx'[j] == v[j] then i else kHi;
        assert mn'[j] == verts[kLo'][j] && mx'[j] == verts[kHi'][j];
      }
      mn, mx := mn', mx';
    }
    b := BBox(mn, mx);
  }

  // ---------------------------------------------------------------------------------------------
  // Player movement

  /** `PLAYER_COLLIDE_DISTANCE`. */
  const PlayerCollideDistance: real := 0.2

  /** `MoveNext`: the player's planned displacement and whether it may be carried out. */
  class MoveNext {
    var nextDpos: Option<Vector>
    var canMove: Option<bool>

    /** `MoveNext::default`: nothing planned, nothing decided. */
    constructor ()
      ensures nextDpos == None && canMove == None
    {
      nextDpos := None;
      canMove := None;
    }

    /** A move is planned and has been allowed. */
    predicate Ready()
      reads this
    {
      nextDpos.Some? && canMove == Some(true)
    }

    /**
     * `Transformable::transform`: add the transform's position to the planned displacement,
     * or plan exactly that position when nothing is planned yet.
     */
    method Transform(t: Transforms.Transform)
      modifies this
      ensures nextDpos == Some(if old(nextDpos).Some? then Add(old(nextDpos).value, t.pos) else t.pos)
      ensures canMove == old(canMove)
    {
      nextDpos := match nextDpos
        case Some(v) => Some(Add(v, t.pos))
        case None => Some(t.pos);
    }
  }

  /**
   * `move_player`: translate the player by the planned displacement when one is planned and
   * allowed and move the camera plane along with it, then clear the plan whatever happened.
   */
  method MovePlayer(moveNext: MoveNext, player: Transforms.Transform, camera: Cameras.Camera)
    requires player.Valid() && player.dim > 0
    requires moveNext.nextDpos.Some? ==> |moveNext.nextDpos.value| == player.dim
    modifies moveNext, player, camera
    ensures player.Valid()
    ensures player.pos == (if old(moveNext.Ready()) then Add(old(player.pos), old(moveNext.nextDpos).value) else old(player.pos))
    ensures player.frame == old(player.frame) && player.scale == old(player.scale)
    ensures camera.plane == (if old(moveNext.Ready()) then Cameras.CameraPlane(player.pos, player.frame) else old(camera.plane))
    ensures moveNext.nextDpos == None && moveNext.canMove == None
  {
    if moveNext.Ready() {
      player.Translate(moveNext.nextDpos.value);
      camera.Update(player);
    }
    moveNext.nextDpos, moveNext.canMove := None, None;
  }

  /** `update_player_bbox` as written: the upper corner is `pos + (-0.2)`, which is the lower one. */
  function UpdatePlayerBBoxAsWritten(pos: Vector): BBox
  {
    BBox(Sub(pos, Constant(|pos|, 0.2)), Add(pos, Constant(|pos|, -0.2)))
  }

  /** As written, the player's box is a single point that does not contain the player. */
  lemma PlayerBBoxAsWrittenDegenerate(pos: Vector)
    ensures UpdatePlayerBBoxAsWritten(pos).min == UpdatePlayerBBoxAsWritten(pos).max
    ensures |pos| > 0 ==> !Contains(UpdatePlayerBBoxAsWritten(pos), pos)
  {
    var b := UpdatePlayerBBoxAsWritten(pos);
    if |pos| > 0 {
      assert b.max[0] < pos[0];
    }
  }

  /** `update_player_bbox` as intended: a box of half-width 0.2 around the player. */
  function UpdatePlayerBBox(pos: Vector): (b: BBox)
    ensures |b.min| == |b.max| == |pos|
  {
    BBox(Sub(pos, Constant(|pos|, 0.2)), Add(pos, Constant(|pos|, 0.2)))
  }

  /** The corrected box contains the player and spans 0.4 along every axis. */
  lemma PlayerBBoxContainsPlayer(pos: Vector)
    ensures Contains(UpdatePlayerBBox(pos), pos)
    ensures forall j :: 0 <= j < |pos| ==> UpdatePlayerBBox(pos).max[j] - UpdatePlayerBBox(pos).min[j] == 0.4
  {
  }

  // ---------------------------------------------------------------------------------------------
  // Collisions with static shapes

  /** `SubFace`: of a convex shape (two face indices) or a boundary of a single face with its plane. */
  datatype ShapeSubFace = ConvexSubFace(facei0: nat, facei1: nat) | BoundarySubFace(facei: nat, plane: Plane)

  /** The parts of a `Shape` collision reads: its vertices, faces and subfaces. */
  datatype Shape = Shape(verts: seq<Vector>, faces: seq<Face>, subfaces: seq<ShapeSubFace>)

  /** Subface `k` is a boundary of face `faceI`. */
  predicate BoundaryOf(subfaces: seq<ShapeSubFace>, faceI: nat, k: int)
  {
    0 <= k < |subfaces| && subfaces[k].BoundarySubFace? && subfaces[k].facei == faceI
  }

  /** The signed distances of `pos` from the boundary planes of face `faceI`, in subface order. */
  function BoundaryDists(subfaces: seq<ShapeSubFace>, faceI: nat, pos: Vector): (r: seq<real>)
    ensures |r| <= |subfaces|
  {
    if |subfaces| == 0 then []
    else
      var sf := subfaces[|subfaces| - 1];
      BoundaryDists(subfaces[..|subfaces| - 1], faceI, pos)
        + (if sf.BoundarySubFace? && sf.facei == faceI then [PointSignedDistance(sf.plane, pos)] else [])
  }

  /** The distances listed are exactly those of the boundaries of face `faceI`. */
  lemma {:induction false} BoundaryDistsMembers(subfaces: seq<ShapeSubFace>, faceI: nat, pos: Vector, x: real)
    ensures x in BoundaryDists(subfaces, faceI, pos) <==>
      exists k :: BoundaryOf(subfaces, faceI, k) && x == PointSignedDistance(subfaces[k].plane, pos)
  {
    if |subfaces| > 0 {
      var init := subfaces[..|subfaces| - 1];
      BoundaryDistsMembers(init, faceI, pos, x);
      if x in BoundaryDists(init, faceI, pos) {
        var k :| BoundaryOf(init, faceI, k) && x == PointSignedDistance(init[k].plane, pos);
        assert BoundaryOf(subfaces, faceI, k);
      }
      if exists k :: BoundaryOf(subfaces, faceI, k) && x == PointSignedDistance(subfaces[k].plane, pos) {
        var k :| BoundaryOf(subfaces, faceI, k) && x == PointSignedDistance(subfaces[k].plane, pos);
        if k < |subfaces| - 1 {
          assert BoundaryOf(init, faceI, k);
        }
      }
    }
  }

  /** `face_max_subface_dist`: the largest signed distance of `pos` from a boundary of the face. */
  function FaceMaxSubfaceDist(subfaces: seq<ShapeSubFace>, faceI: nat, pos: Vector): Option<real>
  {
    Utils.PartialMax(BoundaryDists(subfaces, faceI, pos))
  }

  /**
   * None exactly when the face has no boundary subface; otherwise the distance from one of its
   * boundaries that no other boundary of the face exceeds.
   */
  lemma FaceMaxSubfaceDistIsMax(subfaces: seq<ShapeSubFace>, faceI: nat, pos: Vector)
    ensures FaceMaxSubfaceDist(subfaces, faceI, pos).None? <==> forall k :: !BoundaryOf(subfaces, faceI, k)
    ensures FaceMaxSubfaceDist(subfaces, faceI, pos).Some? ==>
      (exists k :: BoundaryOf(subfaces, faceI, k)
        && FaceMaxSubfaceDist(subfaces, faceI, pos).value == PointSignedDistance(subfaces[k].plane, pos))
      && forall k :: BoundaryOf(subfaces, faceI, k) ==>
        PointSignedDistance(subfaces[k].plane, pos) <= FaceMaxSubfaceDist(subfaces, faceI, pos).value
  {
    var dists := BoundaryDists(subfaces, faceI, pos);
    var r := FaceMaxSubfaceDist(subfaces, faceI, pos);
    if |dists| == 0 {
      forall k | BoundaryOf(subfaces, faceI, k)
        ensures false
      {
        BoundaryDistsMembers(subfaces, faceI, pos, PointSignedDistance(subfaces[k].plane, pos));
      }
    } else {
      Utils.PartialMaxIsMaximum(dists);
      BoundaryDistsMembers(subfaces, faceI, pos, r.value);
      assert dists[0] in dists;
      BoundaryDistsMembers(subfaces, faceI, pos, dists[0]);
      forall k | BoundaryOf(subfaces, faceI, k)
        ensures PointSignedDistance(subfaces[k].plane, pos) <= r.value
      {
        BoundaryDistsMembers(subfaces, faceI, pos, PointSignedDistance(subfaces[k].plane, pos));
      }
    }
  }

  /** The signed distances of `pos` from the face planes, in face order. */
  function FaceDists(faces: seq<Face>, pos: Vector): (r: seq<real>)
    ensures |r| == |faces| && forall i :: 0 <= i < |faces| ==> r[i] == PointSignedDistance(PlaneOf(faces[i]), pos)
  {
    seq(|faces|, i requires 0 <= i < |faces| => PointSignedDistance(PlaneOf(faces[i]), pos))
  }

  /**
   * The `convex_dist` of `Shape::point_normal_distance` is below `d`: the largest signed
   * distance from a face plane, or negative infinity (below everything) for a shape without faces.
   */
  predicate ConvexDistBelow(faces: seq<Face>, pos: Vector, d: real)
  {
    match Utils.PartialMax(FaceDists(faces, pos))
    case None => true
    case Some(m) => m < d
  }

  /** The test `colliding_faces` applies to face `i`. */
  predicate FaceCollides(shape: Shape, collideDistance: real, pos: Vector, i: nat)
    requires i < |shape.faces|
  {
    var faceDist := PointSignedDistance(PlaneOf(shape.faces[i]), pos);
    ConvexDistBelow(shape.faces, pos, collideDistance)
    && 0.0 < faceDist && faceDist < collideDistance
    && match FaceMaxSubfaceDist(shape.subfaces, i, pos)
       case None => true
       case Some(d) => d < collideDistance
  }

  /** The test applied to every face of the shape. */
  function CollisionFlags(shape: Shape, collideDistance: real, pos: Vector): (r: seq<bool>)
    ensures |r| == |shape.faces|
    ensures forall i :: 0 <= i < |shape.faces| ==> r[i] == FaceCollides(shape, collideDistance, pos, i)
  {
    seq(|shape.faces|, i requires 0 <= i < |shape.faces| => FaceCollides(shape, collideDistance, pos, i))
  }

  /** The first `n` items whose flag is set, in order. */
  function Select<T>(xs: seq<T>, keep: seq<bool>, n: nat): (r: seq<T>)
    requires n <= |xs| == |keep|
    ensures |r| <= n
  {
    if n == 0 then []
    else Select(xs, keep, n - 1) + (if keep[n - 1] then [xs[n - 1]] else [])
  }

  /** `x` is item `i` of `xs`, for some `i < n` whose flag is set. */
  predicate SelectedBelow<T(==)>(xs: seq<T>, keep: seq<bool>, x: T, n: nat)
    requires n <= |xs| == |keep|
  {
    exists i :: 0 <= i < n && keep[i] && xs[i] == x
  }

  /** Every selected item has its flag set, and every item with its flag set is selected. */
  lemma {:induction false} SelectExact<T>(xs: seq<T>, keep: seq<bool>, n: nat)
    requires n <= |xs| == |keep|
    ensures forall k :: 0 <= k < |Select(xs, keep, n)| ==> SelectedBelow(xs, keep, Select(xs, keep, n)[k], n)
    ensures forall i :: 0 <= i < n && keep[i] ==> xs[i] in Select(xs, keep, n)
  {
    if n > 0 {
      SelectExact(xs, keep, n - 1);
      var prev := Select(xs, keep, n - 1);
      var r := Select(xs, keep, n);
      forall k | 0 <= k < |r|
        ensures SelectedBelow(xs, keep, r[k], n)
      {
        if k < |prev| {
          assert r[k] == prev[k];
          assert SelectedBelow(xs, keep, prev[k], n - 1);
          var i :| 0 <= i < n - 1 && keep[i] && xs[i] == prev[k];
        } else {
          assert keep[n - 1] && xs[n - 1] == r[k];
        }
      }
      forall i | 0 <= i < n && keep[i]
        ensures xs[i] in r
      {
        if i < n - 1 {
          assert xs[i] in prev;
        } else {
          assert r[|r| - 1] == xs[i];
        }
      }
    }
  }

  /** The faces among the first `n` that pass the test, in order. */
  function CollidingFacesUpTo(shape: Shape, collideDistance: real, pos: Vector, n: nat): (r: seq<Face>)
    requires n <= |shape.faces|
  {
    Select(shape.faces, CollisionFlags(shape, collideDistance, pos), n)
  }

  /**
   * `colliding_faces`: the faces of a shape the player at `pos` is within `collideDistance` of,
   * on the outer side, while inside the distance of the whole convex hull and of the face's
   * own boundaries.
   */
  method CollidingFaces(shape: Shape, collideDistance: real, pos: Vector) returns (out: seq<Face>)
    ensures out == CollidingFacesUpTo(shape, collideDistance, pos, |shape.faces|)
  {
    ghost var flags := CollisionFlags(shape, collideDistance, pos);
    var convexBelow := ConvexDistBelow(shape.faces, pos, collideDistance);
    out := [];
    for i := 0 to |shape.faces|
      invariant out == Select(shape.faces, flags, i)
    {
      var faceDist := PointSignedDistance(PlaneOf(shape.faces[i]), pos);
      var subfaceOk := match FaceMaxSubfaceDist(shape.subfaces, i, pos)
        case None => true
        case Some(d) => d < collideDistance;
      assert flags[i] == (convexBelow && faceDist > 0.0 && faceDist < collideDistance && subfaceOk);
      if convexBelow && faceDist > 0.0 && faceDist < collideDistance && subfaceOk {
        out := out + [shape.faces[i]];
      }
    }
  }

  /** `f` is face `i` of the shape for some `i` that passes the test. */
  predicate CollidingFace(shape: Shape, collideDistance: real, pos: Vector, f: Face)
  {
    exists i :: 0 <= i < |shape.faces| && FaceCollides(shape, collideDistance, pos, i) && shape.faces[i] == f
  }

  /**
   * Every face returned is a face of the shape that passes the test (so lies between 0 and
   * `collideDistance` in front of the player), and every face that passes it is returned.
   */
  lemma CollidingFacesExact(shape: Shape, collideDistance: real, pos: Vector)
    ensures forall k :: 0 <= k < |CollidingFacesUpTo(shape, collideDistance, pos, |shape.faces|)| ==>
      CollidingFace(shape, collideDistance, pos, CollidingFacesUpTo(shape, collideDistance, pos, |shape.faces|)[k])
    ensures forall i :: 0 <= i < |shape.faces| && FaceCollides(shape, collideDistance, pos, i) ==>
      shape.faces[i] in CollidingFacesUpTo(shape, collideDistance, pos, |shape.faces|)
  {
    var flags := CollisionFlags(shape, collideDistance, pos);
    SelectExact(shape.faces, flags, |shape.faces|);
    var r := CollidingFacesUpTo(shape, collideDistance, pos, |shape.faces|);
    forall k | 0 <= k < |r|
      ensures CollidingFace(shape, collideDistance, pos, r[k])
    {
      assert SelectedBelow(shape.faces, flags, r[k], |shape.faces|);
      var i :| 0 <= i < |shape.faces| && flags[i] && shape.faces[i] == r[k];
      assert FaceCollides(shape, collideDistance, pos, i);
    }
  }

  /** `next_dpos + normal * |normal . next_dpos|`: push the displacement away from the face. */
  function Push(dpos: Vector, normal: Vector): Vector
  {
    Add(dpos, Scale(normal, Abs(Dot(normal, dpos))))
  }

  /**
   * With a unit normal the pushed displacement never heads into the face: its component along
   * the normal is `n.d + |n.d|`, which is zero when `d` headed into the face and twice `n.d`
   * otherwise.
   */
  lemma PushRepels(dpos: Vector, normal: Vector)
    requires |dpos| == |normal| && Dot(normal, normal) == 1.0
    ensures Dot(normal, Push(dpos, normal)) == Dot(normal, dpos) + Abs(Dot(normal, dpos))
    ensures Dot(normal, Push(dpos, normal)) >= 0.0
    ensures Dot(normal, dpos) <= 0.0 ==> Dot(normal, Push(dpos, normal)) == 0.0
  {
    var a := Abs(Dot(normal, dpos));
    DotSymmetric(normal, Push(dpos, normal));
    DotAdd(dpos, Scale(normal, a), normal);
    DotScale(normal, a, normal);
    DotSymmetric(dpos, normal);
  }

  /**
   * The effect of one shape: every colliding face sets the plan to the displacement read when
   * the shape was reached, pushed along that face's normal, so the last colliding face wins.
   */
  function ShapeStep(dpos: Vector, shape: Shape, pos: Vector): Vector
  {
    var cf := CollidingFacesUpTo(shape, PlayerCollideDistance, pos, |shape.faces|);
    if |cf| == 0 then dpos else Push(dpos, NormalOf(cf[|cf| - 1]))
  }

  /** The effect of the shapes one after the other. */
  function StaticCollisions(dpos: Vector, shapes: seq<Shape>, pos: Vector): Vector
  {
    if |shapes| == 0 then dpos
    else ShapeStep(StaticCollisions(dpos, shapes[..|shapes| - 1], pos), shapes[|shapes| - 1], pos)
  }

  /**
   * After a shape with a colliding face, the plan does not head into the last such face (given
   * unit normals); a shape with no colliding face leaves the plan unchanged.
   */
  lemma ShapeStepRepels(dpos: Vector, shape: Shape, pos: Vector)
    requires forall i :: 0 <= i < |shape.faces| ==>
      |NormalOf(shape.faces[i])| == |dpos| && Dot(NormalOf(shape.faces[i]), NormalOf(shape.faces[i])) == 1.0
    ensures var cf := CollidingFacesUpTo(shape, PlayerCollideDistance, pos, |shape.faces|);
      (|cf| == 0 ==> ShapeStep(dpos, shape, pos) == dpos)
      && (|cf| > 0 ==> Dot(NormalOf(cf[|cf| - 1]), ShapeStep(dpos, shape, pos)) >= 0.0)
  {
    var cf := CollidingFacesUpTo(shape, PlayerCollideDistance, pos, |shape.faces|);
    if |cf| > 0 {
      SelectExact(shape.faces, CollisionFlags(shape, PlayerCollideDistance, pos), |shape.faces|);
      assert SelectedBelow(shape.faces, CollisionFlags(shape, PlayerCollideDistance, pos), cf[|cf| - 1], |shape.faces|);
      PushRepels(dpos, NormalOf(cf[|cf| - 1]));
    }
  }

  /**
   * `check_player_static_collisions`: when a move is planned and allowed, push the planned
   * displacement away from the faces of each shape the player is near; otherwise do nothing.
   */
  method CheckPlayerStaticCollisions(moveNext: MoveNext, playerPos: Vector, shapes: seq<Shape>)
    modifies moveNext
    ensures old(moveNext.Ready()) ==> moveNext.nextDpos == Some(StaticCollisions(old(moveNext.nextDpos).value, shapes, playerPos))
    ensures !old(moveNext.Ready()) ==> moveNext.nextDpos == old(moveNext.nextDpos)
    ensures moveNext.canMove == old(moveNext.canMove)
  {
    if moveNext.Ready() {
      for s := 0 to |shapes|
        invariant moveNext.canMove == old(moveNext.canMove)
        invariant moveNext.nextDpos == Some(StaticCollisions(old(moveNext.nextDpos).value, shapes[..s], playerPos))
      {
        assert shapes[..s + 1][..s] == shapes[..s];
        var shape := shapes[s];
        var nextDpos := moveNext.nextDpos.value;
        var faces := CollidingFaces(shape, PlayerCollideDistance, playerPos);
        for j := 0 to |faces|
          invariant moveNext.canMove == old(moveNext.canMove)
          invariant moveNext.nextDpos == Some(if j == 0 then nextDpos else Push(nextDpos, NormalOf(faces[j - 1])))
        {
          var normal := NormalOf(faces[j]);
          var newDpos := Add(nextDpos, Scale(normal, Abs(Dot(normal, nextDpos))));
          moveNext.nextDpos := Some(newDpos);
        }
      }
      assert shapes[..|shapes|] == shapes;
    }
  }
}
