/**
 * The spatial hash (`src/spatial_hash.rs`): a box `[min, max]` is cut into `n_cells[i]` slabs
 * along each axis, a point is hashed to the mixed-radix number of the cell it falls in, and a map
 * from cell numbers to values (or to sets of items) is kept.
 */
module SpatialHashes {
  import opened Wrappers
  import opened Vectors

  /** `u32::MAX`. */
  const U32Max: nat := 0xFFFF_FFFF

  /**
   * `x as u32` for a float: truncation towards zero, saturating at 0 below and at `u32::MAX`
   * above.
   */
  function CastU32(x: real): (r: nat)
    ensures r <= U32Max
    ensures 0.0 <= x < U32Max as real ==> r as real <= x < r as real + 1.0
    ensures x <= 0.0 ==> r == 0
  {
    if x <= 0.0 then 0 else if x >= U32Max as real then U32Max else x.Floor
  }

  /** The number of cells along each axis: `(length[i] / desired_cell_size[i]) as u32`. */
  function NCells(length: Vector, desiredCellSize: Vector): (r: seq<nat>)
    requires |desiredCellSize| == |length| && forall i :: 0 <= i < |length| ==> desiredCellSize[i] > 0.0
    ensures |r| == |length| && forall i :: 0 <= i < |length| ==> r[i] == CastU32(length[i] / desiredCellSize[i])
  {
    seq(|length|, i requires 0 <= i < |length| => CastU32(length[i] / desiredCellSize[i]))
  }

  /** The running products `1, n[0], n[0] n[1], ...` of the cell counts. */
  function PrefixProducts(n: seq<nat>): (r: seq<nat>)
    ensures |r| == |n| + 1 && r[0] == 1
  {
    if |n| == 0 then [1]
    else
      var p := PrefixProducts(n[..|n| - 1]);
      p + [p[|p| - 1] * n[|n| - 1]]
  }

  /** Each multiplier is the previous one times the cell count of the axis in between. */
  lemma {:induction false} PrefixProductsStep(n: seq<nat>, i: nat)
    requires i < |n|
    ensures PrefixProducts(n)[i + 1] == PrefixProducts(n)[i] * n[i]
  {
    var p := PrefixProducts(n[..|n| - 1]);
    if i < |n| - 1 {
      PrefixProductsStep(n[..|n| - 1], i);
    }
  }

  /** The multiplier loop of `SpatialHash::new`. */
  method Multipliers(nCells: seq<nat>) returns (multiplier: seq<nat>)
    ensures multiplier == PrefixProducts(nCells)
  {
    multiplier := [1];
    for k := 0 to |nCells|
      invariant multiplier == PrefixProducts(nCells[..k])
    {
      assert nCells[..k + 1][..k] == nCells[..k];
      var last := multiplier[|multiplier| - 1];
      multiplier := multiplier + [last * nCells[k]];
    }
    assert nCells[..|nCells|] == nCells;
  }

  /** The slab along axis `i` that `point` falls in, `((p - min) / length * n) as u32`. */
  function CellCoord(point: Vector, min: Vector, length: Vector, nCells: seq<nat>, i: nat): nat
    requires i < |point| && i < |min| && i < |length| && i < |nCells| && length[i] > 0.0
  {
    CastU32((point[i] - min[i]) / length[i] * nCells[i] as real)
  }

  /** The axes are well described: one entry per axis, positive lengths, a multiplier per axis. */
  predicate Grid(min: Vector, length: Vector, nCells: seq<nat>, multiplier: seq<nat>)
  {
    |length| == |min| && |nCells| == |min| && |multiplier| == |min| + 1
    && forall i :: 0 <= i < |min| ==> length[i] > 0.0
  }

  /** `sum_{i < k} CellCoord(point, i) * multiplier[i]`. */
  function HashUpTo(point: Vector, min: Vector, length: Vector, nCells: seq<nat>, multiplier: seq<nat>, k: nat): nat
    requires Grid(min, length, nCells, multiplier) && |point| == |min| && k <= |min|
  {
    if k == 0 then 0
    else HashUpTo(point, min, length, nCells, multiplier, k - 1) + CellCoord(point, min, length, nCells, k - 1) * multiplier[k - 1]
  }

  /** `SpatialHash::hash`: the mixed-radix cell number of `point`. */
  function CellHash(point: Vector, min: Vector, length: Vector, nCells: seq<nat>, multiplier: seq<nat>): nat
    requires Grid(min, length, nCells, multiplier) && |point| == |min|
  {
    HashUpTo(point, min, length, nCells, multiplier, |min|)
  }

  /** `point` lies in the half-open box `[min, min + length)`. */
  predicate InRegion(point: Vector, min: Vector, length: Vector)
    requires |point| == |min| == |length|
  {
    forall i :: 0 <= i < |min| ==> min[i] <= point[i] < min[i] + length[i]
  }

  /** Inside the box, every cell coordinate is below the number of cells of its axis. */
  lemma CellCoordBelow(point: Vector, min: Vector, length: Vector, nCells: seq<nat>, i: nat)
    requires i < |point| && i < |min| && i < |length| && i < |nCells| && length[i] > 0.0
    requires min[i] <= point[i] < min[i] + length[i] && 0 < nCells[i] <= U32Max
    ensures CellCoord(point, min, length, nCells, i) < nCells[i]
  {
    ScaledCellBelow(point[i], min[i], length[i], nCells[i]);
  }

  /** One axis of `CellCoordBelow`: a coordinate in `[lo, lo + len)` falls in a cell below `n`. */
  lemma ScaledCellBelow(p: real, lo: real, len: real, n: nat)
    requires lo <= p < lo + len && len > 0.0 && 0 < n <= U32Max
    ensures CastU32((p - lo) / len * n as real) < n
  {
    FractionBounds(p, lo, len);
    ScaledFractionBounds(p, lo, len, n);
    assert (p - lo) / len * n as real < U32Max as real;
    assert CastU32((p - lo) / len * n as real) as real <= (p - lo) / len * n as real;
  }

  /** The position of `p` within `[lo, lo + len)`, as a fraction of `len`, lies in `[0, 1)`. */
  lemma FractionBounds(p: real, lo: real, len: real)
    requires lo <= p < lo + len && len > 0.0
    ensures 0.0 <= (p - lo) / len < 1.0
  {
    FractionBelowOne(p - lo, len);
  }

  /** A quotient `a / l` with `0 <= a < l` lies in `[0, 1)`. */
  lemma FractionBelowOne(a: real, l: real)
    requires 0.0 <= a < l
    ensures 0.0 <= a / l < 1.0
  {
    assert a / l * l == a;
  }

  /** Scaling a fraction in `[0, 1)` by a positive count `n` lands in `[0, n)`. */
  lemma ScaledFractionBounds(p: real, lo: real, len: real, n: nat)
    requires len > 0.0 && 0.0 <= (p - lo) / len < 1.0 && n > 0
    ensures 0.0 <= (p - lo) / len * n as real < n as real
  {
  }

  /** One digit more of a mixed-radix number: below `m` plus a digit below `n` times `m` is below `m n`. */
  lemma MixedRadixStep(h: nat, c: nat, m: nat, n: nat)
    requires h < m && c < n
    ensures h + c * m < m * n
  {
    assert h + c * m < (c + 1) * m;
    assert (c + 1) * m <= n * m;
  }

  /** With coordinates below the cell counts, the partial sum stays below the next multiplier. */
  lemma {:induction false} HashUpToBelow(point: Vector, min: Vector, length: Vector, nCells: seq<nat>, k: nat)
    requires Grid(min, length, nCells, PrefixProducts(nCells)) && |point| == |min| && k <= |min|
    requires InRegion(point, min, length)
    requires forall i :: 0 <= i < |nCells| ==> 0 < nCells[i] <= U32Max
    ensures HashUpTo(point, min, length, nCells, PrefixProducts(nCells), k) < PrefixProducts(nCells)[k]
  {
    var m := PrefixProducts(nCells);
    if k > 0 {
      HashUpToBelow(point, min, length, nCells, k - 1);
      CellCoordBelow(point, min, length, nCells, k - 1);
      PrefixProductsStep(nCells, k - 1);
      MixedRadixStep(HashUpTo(point, min, length, nCells, m, k - 1), CellCoord(point, min, length, nCells, k - 1),
        m[k - 1], nCells[k - 1]);
    }
  }

  /**
   * A point of the hashed box gets a cell number below the total number of cells, the last
   * multiplier.
   */
  lemma {:induction false} CellHashBelowTotal(point: Vector, min: Vector, length: Vector, nCells: seq<nat>)
    requires Grid(min, length, nCells, PrefixProducts(nCells)) && |point| == |min|
    requires InRegion(point, min, length)
    requires forall i :: 0 <= i < |nCells| ==> 0 < nCells[i] <= U32Max
    ensures CellHash(point, min, length, nCells, PrefixProducts(nCells)) < PrefixProducts(nCells)[|nCells|]
  {
    HashUpToBelow(point, min, length, nCells, |min|);
  }

  /** The grid of the source's first test: 10 cells of length 1.002 from -0.01 along both axes. */
  lemma GridTestParameters()
    ensures NCells(Sub([10.01, 10.01], [-0.01, -0.01]), [1.0, 1.0]) == [10, 10]
    ensures PrefixProducts([10, 10]) == [1, 10, 100]
  {
    var n := NCells(Sub([10.01, 10.01], [-0.01, -0.01]), [1.0, 1.0]);
    assert n[0] == CastU32(10.02 / 1.0) == 10;
    assert n[1] == CastU32(10.02 / 1.0) == 10;
    assert PrefixProducts([10]) == [1, 10] by {
      assert [10][..0] == [];
    }
    assert [10, 10][..1] == [10];
  }

  /** The source's first test: `(i + 0.9, j + 0.5)` hashes to `i + 10 j` for `i, j < 9`. */
  lemma HashTestGrid(i: nat, j: nat)
    requires i < 9 && j < 9
    ensures CellHash([i as real + 0.9, j as real + 0.5], [-0.01, -0.01], [10.02, 10.02], [10, 10], [1, 10, 100]) == i + 10 * j
  {
    var p: Vector := [i as real + 0.9, j as real + 0.5];
    var min: Vector := [-0.01, -0.01];
    var len: Vector := [10.02, 10.02];
    var x := (p[0] - min[0]) / len[0] * 10.0;
    var y := (p[1] - min[1]) / len[1] * 10.0;
    assert i as real <= x < i as real + 1.0;
    assert j as real <= y < j as real + 1.0;
    assert CellCoord(p, min, len, [10, 10], 0) == i;
    assert CellCoord(p, min, len, [10, 10], 1) == j;
    assert HashUpTo(p, min, len, [10, 10], [1, 10, 100], 1) == i;
    assert HashUpTo(p, min, len, [10, 10], [1, 10, 100], 2) == i + 10 * j;
  }

  /**
   * `SpatialHash`: a map from cell numbers to values over the box `[min, max]`.
   */
  class SpatialHash<V> {
    var cells: map<nat, V>
    const min: Vector
    const max: Vector
    const length: Vector
    const nCells: seq<nat>
    const multiplier: seq<nat>

    predicate Valid()
    {
      Grid(min, length, nCells, multiplier)
    }

    /**
     * `SpatialHash::new`: an empty map, `length = max - min`, the cell counts that fit the desired
     * cell size, and their running products as multipliers. The box must have positive extent
     * and the desired cell size must be positive along every axis.
     */
    constructor New(min: Vector, max: Vector, desiredCellSize: Vector)
      requires |max| == |min| && |desiredCellSize| == |min|
      requires forall i :: 0 <= i < |min| ==> min[i] < max[i] && desiredCellSize[i] > 0.0
      ensures Valid() && cells == map[]
      ensures this.min == min && this.max == max && length == Sub(max, min)
      ensures nCells == NCells(Sub(max, min), desiredCellSize)
      ensures multiplier == PrefixProducts(nCells)
    {
      var length := Sub(max, min);
      var n := NCells(length, desiredCellSize);
      var mult := Multipliers(n);
      this.cells := map[];
      this.min := min;
      this.max := max;
      this.length := length;
      this.nCells := n;
      this.multiplier := mult;
    }

    /** `SpatialHash::hash`. */
    function Hash(point: Vector): nat
      requires Valid() && |point| == |min|
    {
      CellHash(point, min, length, nCells, multiplier)
    }

    /** `SpatialHash::get`: the value stored in the cell of `point`, if any. */
    function Get(point: Vector): (r: Option<V>)
      requires Valid() && |point| == |min|
      reads this
      ensures r.Some? <==> Hash(point) in cells
      ensures r.Some? ==> r.value == cells[Hash(point)]
    {
      var h := Hash(point);
      if h in cells then Some(cells[h]) else None
    }

    /** `SpatialHash::insert`: store `value` in the cell of `point`, returning what was there. */
    method Insert(point: Vector, value: V) returns (previous: Option<V>)
      requires Valid() && |point| == |min|
      modifies this
      ensures Valid() && cells == old(cells)[Hash(point) := value]
      ensures previous == old(Get(point))
    {
      var h := Hash(point);
      previous := if h in cells then Some(cells[h]) else None;
      cells := cells[h := value];
    }

    /** `SpatialHash::remove`: empty the cell of `point`, returning what was there. */
    method Remove(point: Vector) returns (removed: Option<V>)
      requires Valid() && |point| == |min|
      modifies this
      ensures Valid() && cells == old(cells) - {Hash(point)}
      ensures removed == old(Get(point))
      ensures Get(point) == None
    {
      var h := Hash(point);
      removed := if h in cells then Some(cells[h]) else None;
      cells := cells - {h};
    }
  }

  /** `SpatialHashSet`: a spatial hash whose cells hold sets of items. */
  class SpatialHashSet<T(==)> {
    const hash: SpatialHash<set<T>>

    predicate Valid()
      reads this, hash
    {
      hash.Valid()
    }

    /** `SpatialHashSet::new`. */
    constructor New(min: Vector, max: Vector, desiredCellSize: Vector)
      requires |max| == |min| && |desiredCellSize| == |min|
      requires forall i :: 0 <= i < |min| ==> min[i] < max[i] && desiredCellSize[i] > 0.0
      ensures Valid() && fresh(hash) && hash.cells == map[]
      ensures hash.min == min && hash.length == Sub(max, min)
    {
      hash := new SpatialHash<set<T>>.New(min, max, desiredCellSize);
    }

    /** `SpatialHashSet::insert`: add `item` to the set of its cell, creating a singleton set if there is none. */
    method Insert(point: Vector, item: T)
      requires Valid() && |point| == |hash.min|
      modifies hash
      ensures Valid()
      ensures var h := hash.Hash(point);
        hash.cells == old(hash.cells)[h := (if h in old(hash.cells) then old(hash.cells)[h] else {}) + {item}]
    {
      var h := hash.Hash(point);
      if h in hash.cells {
        hash.cells := hash.cells[h := hash.cells[h] + {item}];
      } else {
        var _ := hash.Insert(point, {item});
        assert {} + {item} == {item};
      }
    }

    /**
     * `SpatialHashSet::remove`: take `item` out of the set of its cell and say whether it was
     * there; a cell without a set gives false. An emptied set stays in its cell.
     */
    method Remove(point: Vector, item: T) returns (removed: bool)
      requires Valid() && |point| == |hash.min|
      modifies hash
      ensures Valid()
      ensures var h := hash.Hash(point);
        && removed == (h in old(hash.cells) && item in old(hash.cells)[h])
        && hash.cells == if h in old(hash.cells) then old(hash.cells)[h := old(hash.cells)[h] - {item}] else old(hash.cells)
    {
      var h := hash.Hash(point);
      if h in hash.cells {
        removed := item in hash.cells[h];
        hash.cells := hash.cells[h := hash.cells[h] - {item}];
      } else {
        removed := false;
      }
    }

    /** `SpatialHashSet::clear_cell`: drop the whole set of the cell, returning it. */
    method ClearCell(point: Vector) returns (cleared: Option<set<T>>)
      requires Valid() && |point| == |hash.min|
      modifies hash
      ensures Valid()
      ensures hash.cells == old(hash.cells) - {hash.Hash(point)}
      ensures cleared == old(hash.Get(point))
    {
      cleared := hash.Remove(point);
    }
  }

  /** The grid of the source's second test: 3 cells of length 10/3 from 0 along three axes. */
  lemma CubeTestParameters()
    ensures Sub([10.0, 10.0, 10.0], [0.0, 0.0, 0.0]) == [10.0, 10.0, 10.0]
    ensures NCells([10.0, 10.0, 10.0], [3.0, 3.0, 3.0]) == [3, 3, 3]
    ensures PrefixProducts([3, 3, 3]) == [1, 3, 9, 27]
  {
    assert CastU32(10.0 / 3.0) == 3;
    assert PrefixProducts([3]) == [1, 3] by {
      assert [3][..0] == [];
    }
    assert PrefixProducts([3, 3]) == [1, 3, 9] by {
      assert [3, 3][..1] == [3];
    }
    assert [3, 3, 3][..2] == [3, 3];
  }

  /** Cell numbers of the points the second test uses. */
  lemma CubeTestHashes()
    ensures CellHash([0.5, 1.5, 7.0], [0.0, 0.0, 0.0], [10.0, 10.0, 10.0], [3, 3, 3], [1, 3, 9, 27]) == 18
    ensures CellHash([0.5, 1.5, 8.0], [0.0, 0.0, 0.0], [10.0, 10.0, 10.0], [3, 3, 3], [1, 3, 9, 27]) == 18
    ensures CellHash([0.7, 1.1, 9.0], [0.0, 0.0, 0.0], [10.0, 10.0, 10.0], [3, 3, 3], [1, 3, 9, 27]) == 18
    ensures CellHash([9.5, 5.0, 0.5], [0.0, 0.0, 0.0], [10.0, 10.0, 10.0], [3, 3, 3], [1, 3, 9, 27]) == 5
    ensures CellHash([8.0, 6.0, 0.5], [0.0, 0.0, 0.0], [10.0, 10.0, 10.0], [3, 3, 3], [1, 3, 9, 27]) == 5
    ensures CellHash([7.0, 4.0, 0.0], [0.0, 0.0, 0.0], [10.0, 10.0, 10.0], [3, 3, 3], [1, 3, 9, 27]) == 5
  {
    CubeCell([0.5, 1.5, 7.0], 0, 0, 2);
    CubeCell([0.5, 1.5, 8.0], 0, 0, 2);
    CubeCell([0.7, 1.1, 9.0], 0, 0, 2);
    CubeCell([9.5, 5.0, 0.5], 2, 1, 0);
    CubeCell([8.0, 6.0, 0.5], 2, 1, 0);
    CubeCell([7.0, 4.0, 0.0], 2, 1, 0);
  }

  /** The cast of a number in `[a, a + 1)` is `a`. */
  lemma CastAt(x: real, a: nat)
    requires a as real <= x < a as real + 1.0 && a < U32Max
    ensures CastU32(x) == a
  {
  }

  /** A point of the second test's grid whose cell coordinates are `a`, `b`, `c`. */
  lemma CubeCell(p: Vector, a: nat, b: nat, c: nat)
    requires |p| == 3 && a < 3 && b < 3 && c < 3
    requires a as real <= p[0] * 0.3 < a as real + 1.0
    requires b as real <= p[1] * 0.3 < b as real + 1.0
    requires c as real <= p[2] * 0.3 < c as real + 1.0
    ensures CellHash(p, [0.0, 0.0, 0.0], [10.0, 10.0, 10.0], [3, 3, 3], [1, 3, 9, 27]) == a + 3 * b + 9 * c
  {
    var z: Vector := [0.0, 0.0, 0.0];
    var l: Vector := [10.0, 10.0, 10.0];
    forall k | 0 <= k < 3
      ensures (p[k] - z[k]) / l[k] * 3 as real == p[k] * 0.3
    {
    }
    CastAt(p[0] * 0.3, a);
    CastAt(p[1] * 0.3, b);
    CastAt(p[2] * 0.3, c);
    assert CellCoord(p, z, l, [3, 3, 3], 0) == a;
    assert CellCoord(p, z, l, [3, 3, 3], 1) == b;
    assert CellCoord(p, z, l, [3, 3, 3], 2) == c;
    assert HashUpTo(p, z, l, [3, 3, 3], [1, 3, 9, 27], 1) == a;
    assert HashUpTo(p, z, l, [3, 3, 3], [1, 3, 9, 27], 2) == a + 3 * b;
  }

  /**
   * The source's second test: a second insert into the cell of an earlier one returns the
   * earlier value, lookups find the values of their cells, and after a remove the cell is empty.
   */
  method HashTestCube() returns (second: Option<nat>, found: Option<nat>, other: Option<nat>, removed: Option<nat>, after: Option<nat>)
    ensures second == Some(5) && found == Some(8) && other == Some(1) && removed == Some(1) && after == None
  {
    CubeTestParameters();
    CubeTestHashes();
    var hash := new SpatialHash<nat>.New([0.0, 0.0, 0.0], [10.0, 10.0, 10.0], [3.0, 3.0, 3.0]);
    assert hash.min == [0.0, 0.0, 0.0] && hash.length == [10.0, 10.0, 10.0];
    assert hash.nCells == [3, 3, 3] && hash.multiplier == [1, 3, 9, 27];
    assert hash.Hash([0.5, 1.5, 7.0]) == 18 && hash.Hash([0.5, 1.5, 8.0]) == 18 && hash.Hash([0.7, 1.1, 9.0]) == 18;
    assert hash.Hash([9.5, 5.0, 0.5]) == 5 && hash.Hash([8.0, 6.0, 0.5]) == 5 && hash.Hash([7.0, 4.0, 0.0]) == 5;
    var _ := hash.Insert([0.5, 1.5, 7.0], 5);
    assert hash.cells == map[18 := 5];
    second := hash.Insert([0.5, 1.5, 8.0], 8);
    assert hash.cells == map[18 := 8];
    var _ := hash.Insert([9.5, 5.0, 0.5], 1);
    assert hash.cells == map[18 := 8, 5 := 1];
    found := hash.Get([0.7, 1.1, 9.0]);
    other := hash.Get([8.0, 6.0, 0.5]);
    removed := hash.Remove([7.0, 4.0, 0.0]);
    assert hash.cells == map[18 := 8];
    after := hash.Get([8.0, 6.0, 0.5]);
  }
}
