/**
 * Turning input into transforms (`src/input/input_to_transform.rs`): the locked axes a user
 * toggles with the number keys, rounding for snapping, restricting a displacement to the locked
 * axes, and the scroll and drag handlers that move or turn a shape relative to the transform it
 * had when the gesture started. Mouse and scroll deltas, the frame time and the toggle state of
 * the keys are parameters; the rotation matrix builder (cosines and sines) is a parameter too.
 */
module InputToTransform {
  import opened Vectors
  import opened Matrices
  import opened Itertools
  import opened Transforms

  /** `MOUSE_SENSITIVITY`. */
  const MouseSensitivity: real := 0.2

  /** `std::f32::consts::PI`, the exact value of the single-precision constant. */
  const Pi: real := 3.1415927410125732421875

  /** `ROUND_VEC_RESOLUTION`. */
  const RoundVecResolution: real := 0.25

  /** The axes of `AXIS_KEYMAP`, keys 1 to 4 in order. */
  const AxisKeymap: seq<nat> := [0, 1, 2, 3]

  // ---------------------------------------------------------------------------------------------
  // set_axes

  /** `s.retain(|x| x != ax)`: every copy of `ax` removed, the rest kept in order. */
  function RemoveAll(s: seq<nat>, ax: nat): (r: seq<nat>)
    ensures forall x :: x in r <==> x in s && x != ax
    ensures |r| <= |s|
  {
    if |s| == 0 then []
    else
      var init := RemoveAll(s[..|s| - 1], ax);
      assert forall y :: y in s <==> y in s[..|s| - 1] || y == s[|s| - 1];
      if s[|s| - 1] == ax then init else init + [s[|s| - 1]]
  }

  /**
   * The closure `set_axes` runs for a triggered key: an axis of the space is unlocked when it
   * is locked and locked (at the end) when it is not; an axis beyond the space is ignored.
   */
  function ToggleAxis(locked: seq<nat>, ax: nat, dim: nat): (r: seq<nat>)
    ensures ax >= dim ==> r == locked
    ensures ax < dim ==> (ax in r <==> ax !in locked)
    ensures forall x :: x != ax ==> (x in r <==> x in locked)
  {
    if ax >= dim then locked
    else if ax in locked then RemoveAll(locked, ax)
    else locked + [ax]
  }

  /** The locked axes after the first `n` keys of `AXIS_KEYMAP` are looked at. */
  function SetAxesUpTo(triggered: seq<bool>, locked: seq<nat>, dim: nat, n: nat): seq<nat>
    requires n <= |AxisKeymap| == |triggered|
  {
    if n == 0 then locked
    else
      var prev := SetAxesUpTo(triggered, locked, dim, n - 1);
      if triggered[n - 1] then ToggleAxis(prev, AxisKeymap[n - 1], dim) else prev
  }

  /**
   * `set_axes`: for each key of `AXIS_KEYMAP` whose toggle fired (`triggered`), toggle its axis.
   */
  method SetAxes(triggered: seq<bool>, lockedAxes: seq<nat>, dim: nat) returns (locked: seq<nat>)
    requires |triggered| == |AxisKeymap|
    ensures locked == SetAxesUpTo(triggered, lockedAxes, dim, |AxisKeymap|)
  {
    locked := lockedAxes;
    for k := 0 to |AxisKeymap|
      invariant locked == SetAxesUpTo(triggered, lockedAxes, dim, k)
    {
      var ax := AxisKeymap[k];
      if triggered[k] {
        if ax < dim {
          if ax in locked {
            locked := RemoveAll(locked, ax);
          } else {
            locked := locked + [ax];
          }
        }
      }
    }
  }

  /** Locked axes are distinct axes of the space. */
  predicate LockedValid(locked: seq<nat>, dim: nat)
  {
    NoDuplicates(locked) && forall i :: 0 <= i < |locked| ==> locked[i] < dim
  }

  /** Removing an axis keeps the list free of duplicates. */
  lemma {:induction false} RemoveAllNoDuplicates(s: seq<nat>, ax: nat)
    requires NoDuplicates(s)
    ensures NoDuplicates(RemoveAll(s, ax))
  {
    if |s| > 0 {
      var n := |s| - 1;
      assert NoDuplicates(s[..n]);
      RemoveAllNoDuplicates(s[..n], ax);
      var init := RemoveAll(s[..n], ax);
      assert s[n] !in s[..n] by {
        assert forall i :: 0 <= i < n ==> s[..n][i] != s[n];
      }
      if s[n] != ax {
        var r := init + [s[n]];
        forall i, j | 0 <= i < j < |r|
          ensures r[i] != r[j]
        {
          if j == |r| - 1 {
            assert r[i] in init;
          }
        }
      }
    }
  }

  /** Toggling keeps the locked axes distinct axes of the space. */
  lemma ToggleAxisValid(locked: seq<nat>, ax: nat, dim: nat)
    requires LockedValid(locked, dim)
    ensures LockedValid(ToggleAxis(locked, ax, dim), dim)
  {
    var r := ToggleAxis(locked, ax, dim);
    if ax < dim && ax in locked {
      RemoveAllNoDuplicates(locked, ax);
    }
    forall i | 0 <= i < |r|
      ensures r[i] < dim
    {
      assert r[i] in r;
    }
  }

  /** Toggling an unlocked axis twice gives back the same list. */
  lemma {:induction false} ToggleTwice(locked: seq<nat>, ax: nat, dim: nat)
    requires ax !in locked
    ensures ToggleAxis(ToggleAxis(locked, ax, dim), ax, dim) == locked
  {
    if ax < dim {
      RemoveAllAbsent(locked, ax);
      RemoveAllLast(locked, ax);
    }
  }

  /** Removing an absent item changes nothing. */
  lemma {:induction false} RemoveAllAbsent(s: seq<nat>, ax: nat)
    requires ax !in s
    ensures RemoveAll(s, ax) == s
  {
    if |s| > 0 {
      assert s[..|s| - 1] + [s[|s| - 1]] == s;
      RemoveAllAbsent(s[..|s| - 1], ax);
    }
  }

  /** Removing an item appended last removes just that append when it was absent before. */
  lemma RemoveAllLast(s: seq<nat>, ax: nat)
    requires ax !in s
    ensures RemoveAll(s + [ax], ax) == RemoveAll(s, ax)
  {
    assert (s + [ax])[..|s + [ax]| - 1] == s;
  }

  /**
   * After `set_axes`, with distinct keymap axes, an axis of the space is locked exactly when it
   * was locked and its key did not fire, or was unlocked and its key fired; other axes keep
   * their state. The locked axes stay distinct axes of the space.
   */
  lemma {:induction false} SetAxesToggles(triggered: seq<bool>, locked: seq<nat>, dim: nat, n: nat, ax: nat)
    requires n <= |AxisKeymap| == |triggered|
    ensures ax in SetAxesUpTo(triggered, locked, dim, n) <==>
      if ax < dim && ax < n then (ax in locked) != triggered[ax] else ax in locked
  {
    if n > 0 {
      SetAxesToggles(triggered, locked, dim, n - 1, ax);
    }
  }

  lemma {:induction false} SetAxesValid(triggered: seq<bool>, locked: seq<nat>, dim: nat, n: nat)
    requires n <= |AxisKeymap| == |triggered| && LockedValid(locked, dim)
    ensures LockedValid(SetAxesUpTo(triggered, locked, dim, n), dim)
  {
    if n > 0 {
      SetAxesValid(triggered, locked, dim, n - 1);
      ToggleAxisValid(SetAxesUpTo(triggered, locked, dim, n - 1), AxisKeymap[n - 1], dim);
    }
  }

  // ---------------------------------------------------------------------------------------------
  // Rounding

  /** `f32::round`: to the nearest integer, halves away from zero. */
  function Round(y: real): (k: int)
    ensures -0.5 <= k as real - y <= 0.5
    ensures y >= 0.0 ==> k >= 0
  {
    if y >= 0.0 then (y + 0.5).Floor else -((-y + 0.5).Floor)
  }

  /** The error of a rounded quotient, scaled back. */
  lemma ScaledRoundingError(k: real, y: real, to: real)
    requires -0.5 <= k - y <= 0.5 && to != 0.0
    ensures Abs(k * to - y * to) <= Abs(to) / 2.0
  {
    var d := k - y;
    assert k * to - y * to == d * to;
    var m := Abs(to);
    MulNonnegative(0.5 - d, m);
    MulNonnegative(d + 0.5, m);
    assert Abs(d * to) == Abs(d) * m;
  }

  /** Rounding the quotient `x / to` to `k` leaves `k * to` within half a step of `x`. */
  lemma RoundedMultipleError(k: real, x: real, to: real)
    requires to != 0.0 && -0.5 <= k - x / to <= 0.5
    ensures Abs(k * to - x) <= Abs(to) / 2.0
  {
    var y := x / to;
    assert y * to == x;
    ScaledRoundingError(k, y, to);
  }

  lemma CancelFactor(a: real, b: real)
    requires b != 0.0
    ensures a * b / b == a
  {
  }

  /** `k * to` is a whole multiple of `to`. */
  lemma WholeMultiple(k: int, to: real)
    requires to != 0.0
    ensures (k as real * to / to).Floor as real == k as real * to / to
  {
    CancelFactor(k as real, to);
  }

  lemma MulNonnegative(a: real, b: real)
    requires a >= 0.0 && b >= 0.0
    ensures a * b >= 0.0
  {
  }

  /**
   * `round_to(x, to)`: `x` rounded to a whole multiple of `to`, at most half a step away.
   * The source only uses positive resolutions.
   */
  function RoundTo(x: real, to: real): (r: real)
    requires to != 0.0
    ensures Abs(r - x) <= Abs(to) / 2.0
    ensures (r / to).Floor as real == r / to
  {
    var k := Round(x / to);
    RoundedMultipleError(k as real, x, to);
    WholeMultiple(k, to);
    k as real * to
  }

  /** `round_vec`: every component rounded to a multiple of `ROUND_VEC_RESOLUTION`. */
  function RoundVec(v: Vector): (r: Vector)
    ensures |r| == |v| && forall i :: 0 <= i < |v| ==> Abs(r[i] - v[i]) <= RoundVecResolution / 2.0
  {
    seq(|v|, i requires 0 <= i < |v| => RoundTo(v[i], RoundVecResolution))
  }

  /** `round_angle`: an angle rounded to a multiple of `PI / 8`. */
  function RoundAngle(angle: real): (r: real)
    ensures Abs(r - angle) <= Pi / 16.0
  {
    RoundTo(angle, Pi / 8.0)
  }

  // ---------------------------------------------------------------------------------------------
  // clear_components, apply_locked_axes

  /** `v` with the listed components set to zero. */
  function Cleared(axes: seq<nat>, v: Vector): (r: Vector)
    ensures |r| == |v|
  {
    seq(|v|, i requires 0 <= i < |v| => if i in axes then 0.0 else v[i])
  }

  /** `clear_components`: zero the listed components; the source panics on an axis out of range. */
  method ClearComponents(axes: seq<nat>, v: Vector) returns (r: Vector)
    requires forall k :: 0 <= k < |axes| ==> axes[k] < |v|
    ensures r == Cleared(axes, v)
  {
    r := v;
    for k := 0 to |axes|
      invariant |r| == |v|
      invariant forall i :: 0 <= i < |v| ==> r[i] == if i in axes[..k] then 0.0 else v[i]
    {
      assert forall i :: i in axes[..k + 1] <==> i in axes[..k] || i == axes[k];
      r := r[axes[k] := 0.0];
    }
    assert axes[..|axes|] == axes;
  }

  /** `defaults` with the listed components taken from `v`. */
  function Locked(axes: seq<nat>, defaults: Vector, v: Vector): (r: Vector)
    requires |v| == |defaults|
    ensures |r| == |v|
  {
    seq(|v|, i requires 0 <= i < |v| => if i in axes then v[i] else defaults[i])
  }

  /**
   * `apply_locked_axes`: with no locked axis the whole of `v`; otherwise `defaults` with the
   * locked components copied from `v`.
   */
  method ApplyLockedAxes(lockedAxes: seq<nat>, defaults: Vector, v: Vector) returns (r: Vector)
    requires |v| == |defaults| && forall k :: 0 <= k < |lockedAxes| ==> lockedAxes[k] < |v|
    ensures r == if |lockedAxes| == 0 then v else Locked(lockedAxes, defaults, v)
  {
    if |lockedAxes| == 0 {
      return v;
    }
    r := defaults;
    for k := 0 to |lockedAxes|
      invariant |r| == |v|
      invariant forall i :: 0 <= i < |v| ==> r[i] == if i in lockedAxes[..k] then v[i] else defaults[i]
    {
      assert forall i :: i in lockedAxes[..k + 1] <==> i in lockedAxes[..k] || i == lockedAxes[k];
      r := r[lockedAxes[k] := v[lockedAxes[k]]];
    }
    assert lockedAxes[..|lockedAxes|] == lockedAxes;
  }

  /** The locked part on a zero background and the cleared part add up to the whole vector. */
  lemma LockedPlusCleared(axes: seq<nat>, v: Vector)
    ensures Add(Locked(axes, Zero(|v|), v), Cleared(axes, v)) == v
  {
    var s := Add(Locked(axes, Zero(|v|), v), Cleared(axes, v));
    forall i | 0 <= i < |v|
      ensures s[i] == v[i]
    {
    }
  }

  /** Both are idempotent: clearing or locking twice is clearing or locking once. */
  lemma LockedClearedIdempotent(axes: seq<nat>, defaults: Vector, v: Vector)
    requires |v| == |defaults|
    ensures Cleared(axes, Cleared(axes, v)) == Cleared(axes, v)
    ensures Locked(axes, defaults, Locked(axes, defaults, v)) == Locked(axes, defaults, v)
  {
  }

  // ---------------------------------------------------------------------------------------------
  // Drag and scroll handlers

  /** `mouse_to_space`: the drag as a displacement along the camera's first two frame rows. */
  function MouseToSpace(dx: real, dy: real, cameraFrame: Matrix): (r: Vector)
    requires |cameraFrame| >= 2 && |cameraFrame[0]| == |cameraFrame[1]|
    ensures |r| == |cameraFrame[0]|
  {
    Sub(Scale(cameraFrame[0], dx), Scale(cameraFrame[1], dy))
  }

  /**
   * `scrolling_axis_translation`: with a nonzero drag, add the drag (restricted to the locked
   * axes, scaled by time and sensitivity) to the accumulated displacement, and reset the
   * transform to the original translated by that displacement, rounded when snapping. Without
   * a drag nothing changes.
   */
  method ScrollingAxisTranslation(dx: real, dy: real, dt: real, lockedAxes: seq<nat>, snap: bool,
                                  original: Transform, posDelta: Vector, transform: Transform, camera: Transform)
    returns (update: bool, newPosDelta: Vector)
    requires original.Valid() && transform.Valid() && camera.Valid()
    requires original.dim == transform.dim == camera.dim >= 2 && |posDelta| == transform.dim
    requires forall k :: 0 <= k < |lockedAxes| ==> lockedAxes[k] < transform.dim
    requires transform != original && transform != camera
    modifies transform
    ensures transform.Valid()
    ensures update <==> dx != 0.0 || dy != 0.0
    ensures !update ==> (newPosDelta == posDelta
      && transform.pos == old(transform.pos) && transform.frame == old(transform.frame) && transform.scale == old(transform.scale))
    ensures update ==>
      var drag := Scale(Scale(MouseToSpace(dx, dy, camera.frame), dt), MouseSensitivity);
      newPosDelta == Add(posDelta, if |lockedAxes| == 0 then drag else Locked(lockedAxes, Zero(transform.dim), drag))
      && transform.pos == Add(old(original.pos), if snap then RoundVec(newPosDelta) else newPosDelta)
      && transform.frame == old(original.frame) && transform.scale == old(original.scale)
  {
    newPosDelta := posDelta;
    update := false;
    if dx != 0.0 || dy != 0.0 {
      var drag := Scale(Scale(MouseToSpace(dx, dy, camera.frame), dt), MouseSensitivity);
      var dpos := ApplyLockedAxes(lockedAxes, Zero(transform.dim), drag);
      newPosDelta := Add(posDelta, dpos);
      transform.SetTransform(original);
      transform.Translate(if snap then RoundVec(newPosDelta) else newPosDelta);
      update := true;
    }
  }

  /** `frame` turned in the plane of its rows `a1` and `a2`, as `Transform::rotate` does. */
  function RotateFrame(frame: Matrix, a1: nat, a2: nat, angle: real, rotationMatrix: (Vector, Vector, real) -> Matrix, dim: nat): (r: Matrix)
    requires IsMatrix(frame, dim) && a1 < dim && a2 < dim && RotationsFit(rotationMatrix, dim)
    ensures IsMatrix(r, dim)
  {
    MatMul(rotationMatrix(frame[a1], frame[a2], angle), frame, dim)
  }

  /**
   * `axis_rotation`: with a nonzero drag and two (or four) locked axes, add the drag to the
   * accumulated angle and reset the transform to the original turned by that angle (rounded
   * when snapping) in the plane of the first two locked axes (and then of the next two). With
   * no drag or another number of locked axes nothing changes.
   */
  method AxisRotation(dx: real, dy: real, dt: real, lockedAxes: seq<nat>, snap: bool,
                      original: Transform, angleDelta: real, transform: Transform,
                      rotationMatrix: (Vector, Vector, real) -> Matrix)
    returns (update: bool, newAngleDelta: real)
    requires original.Valid() && transform.Valid() && original.dim == transform.dim
    requires forall k :: 0 <= k < |lockedAxes| ==> lockedAxes[k] < transform.dim
    requires RotationsFit(rotationMatrix, transform.dim) && transform != original
    modifies transform
    ensures transform.Valid()
    ensures update <==> (dx != 0.0 || dy != 0.0) && (|lockedAxes| == 2 || |lockedAxes| == 4)
    ensures !update ==> (newAngleDelta == angleDelta
      && transform.pos == old(transform.pos) && transform.frame == old(transform.frame) && transform.scale == old(transform.scale))
    ensures update ==>
      newAngleDelta == angleDelta + (dx + dy) * dt * MouseSensitivity
      && transform.pos == old(original.pos) && transform.scale == old(original.scale)
      && var angle := if snap then RoundAngle(newAngleDelta) else newAngleDelta;
         var once := RotateFrame(old(original.frame), lockedAxes[0], lockedAxes[1], angle, rotationMatrix, transform.dim);
         transform.frame == if |lockedAxes| == 2 then once
           else RotateFrame(once, lockedAxes[2], lockedAxes[3], angle, rotationMatrix, transform.dim)
  {
    newAngleDelta := angleDelta;
    update := false;
    if dx != 0.0 || dy != 0.0 {
      if |lockedAxes| == 2 || |lockedAxes| == 4 {
        var dangle := (dx + dy) * dt * MouseSensitivity;
        newAngleDelta := newAngleDelta + dangle;
        transform.SetTransform(original);
        var angle := if snap then RoundAngle(newAngleDelta) else newAngleDelta;
        transform.Rotate(lockedAxes[0], lockedAxes[1], angle, rotationMatrix);
        if |lockedAxes| == 4 {
          transform.Rotate(lockedAxes[2], lockedAxes[3], angle, rotationMatrix);
        }
        update := true;
      }
    }
  }
}
