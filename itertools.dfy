/**
 * The `unique` iterator adapter of itertools, as used by `src/geometry/shape/face.rs` and
 * `src/geometry/shape/convex.rs`: it yields each distinct item once, at its first occurrence.
 */
module Itertools {
  /** No item occurs twice. */
  predicate NoDuplicates<T(==,!new)>(s: seq<T>)
  {
    forall i, j :: 0 <= i < j < |s| ==> s[i] != s[j]
  }

  /** `s.into_iter().unique().collect()`: the distinct items of `s` in order of first occurrence. */
  function Unique<T(==,!new)>(s: seq<T>): (r: seq<T>)
    ensures forall x :: x in r <==> x in s
    ensures NoDuplicates(r)
    ensures |r| <= |s|
  {
    if |s| == 0 then []
    else
      var r := Unique(s[..|s| - 1]);
      var x := s[|s| - 1];
      assert forall y :: y in s <==> y in s[..|s| - 1] || y == x;
      if x in r then r else r + [x]
  }

  /** `k` is the index of the first occurrence of `x` in `s`. */
  predicate FirstAt<T(==,!new)>(s: seq<T>, x: T, k: int)
  {
    0 <= k < |s| && s[k] == x && x !in s[..k]
  }

  /**
   * `unique` keeps first-occurrence order: an item listed before another in the result first
   * occurs before it in the input.
   */
  lemma {:induction false} UniqueOrder<T(!new)>(s: seq<T>, i: int, j: int, ki: int, kj: int)
    requires 0 <= i < j < |Unique(s)|
    requires FirstAt(s, Unique(s)[i], ki) && FirstAt(s, Unique(s)[j], kj)
    ensures ki < kj
  {
    var init := s[..|s| - 1];
    var r := Unique(init);
    var x := s[|s| - 1];
    if x in r {
      FirstAtInPrefix(s, r[i], ki);
      FirstAtInPrefix(s, r[j], kj);
      UniqueOrder(init, i, j, ki, kj);
    } else if j == |r| {
      assert Unique(s)[j] == x && x !in init;
      assert forall m :: 0 <= m < |s| - 1 ==> s[m] != x;
      assert Unique(s)[i] == r[i] && r[i] in init;
      assert r[i] != x;
    } else {
      assert Unique(s)[i] == r[i] && Unique(s)[j] == r[j];
      FirstAtInPrefix(s, r[i], ki);
      FirstAtInPrefix(s, r[j], kj);
      UniqueOrder(init, i, j, ki, kj);
    }
  }

  /** The first occurrence of an item of the prefix `s[..|s|-1]` is within that prefix. */
  lemma FirstAtInPrefix<T(!new)>(s: seq<T>, x: T, k: int)
    requires |s| > 0 && x in s[..|s| - 1] && FirstAt(s, x, k)
    ensures FirstAt(s[..|s| - 1], x, k)
  {
    var init := s[..|s| - 1];
    assert x !in s[..k] && x in init;
    assert init[..k] == s[..k];
  }

  /**
   * The adapter as a loop: each item is emitted unless it was already seen. The result is
   * `Unique(s)`.
   */
  method UniqueInOrder<T(==,!new)>(s: seq<T>) returns (r: seq<T>)
    ensures r == Unique(s)
  {
    r := [];
    var seen: set<T> := {};
    for i := 0 to |s|
      invariant r == Unique(s[..i])
      invariant forall x :: x in seen <==> x in r
    {
      assert s[..i + 1][..i] == s[..i];
      if s[i] !in seen {
        seen := seen + {s[i]};
        r := r + [s[i]];
      }
    }
    assert s[..|s|] == s;
  }
}
