/**
 * `partial_max` and `partial_min` of `src/utils.rs`: a `reduce` over the items that replaces the
 * accumulator only on a strictly larger (smaller) item. The source compares items with
 * `PartialOrd`; here the order is given by a real-valued `key`, so that distinct items may
 * compare equal and "earliest of equal maxima" has a meaning.
 */
module Utils {
  import opened Wrappers

  /** `partial_max`: left-to-right `reduce(|acc, x| if x > acc { x } else { acc })`. */
  function PartialMaxBy<T>(s: seq<T>, key: T -> real): (r: Option<T>)
    ensures r.None? <==> |s| == 0
  {
    if |s| == 0 then None
    else if |s| == 1 then Some(s[0])
    else
      var acc := PartialMaxBy(s[..|s| - 1], key).value;
      var x := s[|s| - 1];
      Some(if key(x) > key(acc) then x else acc)
  }

  /** `partial_min`: left-to-right `reduce(|acc, x| if x < acc { x } else { acc })`. */
  function PartialMinBy<T>(s: seq<T>, key: T -> real): (r: Option<T>)
    ensures r.None? <==> |s| == 0
  {
    if |s| == 0 then None
    else if |s| == 1 then Some(s[0])
    else
      var acc := PartialMinBy(s[..|s| - 1], key).value;
      var x := s[|s| - 1];
      Some(if key(x) < key(acc) then x else acc)
  }

  /** `partial_max` on plain numbers. */
  function PartialMax(s: seq<real>): (r: Option<real>)
  {
    PartialMaxBy(s, x => x)
  }

  /** `partial_min` on plain numbers. */
  function PartialMin(s: seq<real>): (r: Option<real>)
  {
    PartialMinBy(s, x => x)
  }

  /** Index `k` holds a maximal key and every earlier index a strictly smaller one. */
  predicate FirstMaximumAt<T>(s: seq<T>, key: T -> real, k: int)
  {
    0 <= k < |s|
    && (forall j :: 0 <= j < |s| ==> key(s[j]) <= key(s[k]))
    && (forall j :: 0 <= j < k ==> key(s[j]) < key(s[k]))
  }

  /** Index `k` holds a minimal key and every earlier index a strictly larger one. */
  predicate FirstMinimumAt<T>(s: seq<T>, key: T -> real, k: int)
  {
    0 <= k < |s|
    && (forall j :: 0 <= j < |s| ==> key(s[k]) <= key(s[j]))
    && (forall j :: 0 <= j < k ==> key(s[k]) < key(s[j]))
  }

  /**
   * The item `partial_max` returns sits at the first index whose key is maximal: no item has a
   * larger key and every earlier item has a strictly smaller one.
   */
  lemma {:induction false} PartialMaxByIsFirstMaximum<T>(s: seq<T>, key: T -> real)
    requires |s| > 0
    ensures exists k :: FirstMaximumAt(s, key, k) && PartialMaxBy(s, key) == Some(s[k])
  {
    if |s| == 1 {
      assert FirstMaximumAt(s, key, 0) && PartialMaxBy(s, key) == Some(s[0]);
    } else {
      var init := s[..|s| - 1];
      PartialMaxByIsFirstMaximum(init, key);
      var k :| FirstMaximumAt(init, key, k) && PartialMaxBy(init, key) == Some(init[k]);
      var k' := FirstMaximumExtend(s, key, k);
      assert FirstMaximumAt(s, key, k') && PartialMaxBy(s, key) == Some(s[k']);
    }
  }

  /**
   * One step of the reduce: the first maximum of `s` is the first maximum `k` of all but its
   * last item, unless the last item's key is strictly larger.
   */
  lemma FirstMaximumExtend<T>(s: seq<T>, key: T -> real, k: int) returns (k': int)
    requires |s| > 1 && FirstMaximumAt(s[..|s| - 1], key, k)
    ensures k' == if key(s[|s| - 1]) > key(s[k]) then |s| - 1 else k
    ensures FirstMaximumAt(s, key, k')
  {
    var init := s[..|s| - 1];
    assert forall j :: 0 <= j < |s| - 1 ==> s[j] == init[j];
    k' := if key(s[|s| - 1]) > key(s[k]) then |s| - 1 else k;
  }

  /** Mirror image for `partial_min`: the first item whose key is minimal. */
  lemma {:induction false} PartialMinByIsFirstMinimum<T>(s: seq<T>, key: T -> real)
    requires |s| > 0
    ensures exists k :: FirstMinimumAt(s, key, k) && PartialMinBy(s, key) == Some(s[k])
  {
    if |s| == 1 {
      assert FirstMinimumAt(s, key, 0) && PartialMinBy(s, key) == Some(s[0]);
    } else {
      var init := s[..|s| - 1];
      PartialMinByIsFirstMinimum(init, key);
      var k :| FirstMinimumAt(init, key, k) && PartialMinBy(init, key) == Some(init[k]);
      var k' := FirstMinimumExtend(s, key, k);
      assert FirstMinimumAt(s, key, k') && PartialMinBy(s, key) == Some(s[k']);
    }
  }

  lemma FirstMinimumExtend<T>(s: seq<T>, key: T -> real, k: int) returns (k': int)
    requires |s| > 1 && FirstMinimumAt(s[..|s| - 1], key, k)
    ensures k' == if key(s[|s| - 1]) < key(s[k]) then |s| - 1 else k
    ensures FirstMinimumAt(s, key, k')
  {
    var init := s[..|s| - 1];
    assert forall j :: 0 <= j < |s| - 1 ==> s[j] == init[j];
    k' := if key(s[|s| - 1]) < key(s[k]) then |s| - 1 else k;
  }

  /** On numbers: `partial_max` returns an element of the input that no element exceeds. */
  lemma PartialMaxIsMaximum(s: seq<real>)
    requires |s| > 0
    ensures PartialMax(s).value in s
    ensures forall x :: x in s ==> x <= PartialMax(s).value
  {
    PartialMaxByIsFirstMaximum(s, x => x);
  }

  /** On numbers: `partial_min` returns an element of the input that no element undercuts. */
  lemma PartialMinIsMinimum(s: seq<real>)
    requires |s| > 0
    ensures PartialMin(s).value in s
    ensures forall x :: x in s ==> PartialMin(s).value <= x
  {
    PartialMinByIsFirstMinimum(s, x => x);
  }
}
