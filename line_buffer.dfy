/**
 * The reusable buffer of `src/draw/line_buffer.rs`: a vector that is kept between frames, with a
 * current index and a current size; only the first `cur_size` elements are in use, so a frame can
 * overwrite the previous frame's elements without reallocating.
 *
 * `Buffer` is the code as written. Its `add` does not advance the index when it pushes, so the
 * second of a run of adds is overwritten by the third, and `add_to_end` on a buffer that never
 * held an element counts that element twice. `CorrectedBuffer` keeps the index as the next
 * position to write, which gives the behaviour the comments describe.
 */
module LineBuffer {
  /** `usize::max`. */
  function Max(a: nat, b: nat): nat { if a < b then b else a }

  /** `Buffer<T>`, as written. */
  class Buffer<T> {
    var vec: seq<T>
    var curIndex: nat
    var curSize: nat

    /**
     * The states reachable without `add_to_end` on an empty buffer: the used part lies within
     * the vector, the index points into it, and an empty vector has index and size 0.
     */
    predicate Valid()
      reads this
    {
      curSize <= |vec|
      && (|vec| > 0 ==> curIndex < |vec|)
      && (|vec| == 0 ==> curIndex == 0 && curSize == 0)
    }

    /** `Buffer::new`: an empty vector, index and size 0. */
    constructor ()
      ensures Valid() && vec == [] && curIndex == 0 && curSize == 0
    {
      vec := [];
      curIndex := 0;
      curSize := 0;
    }

    /**
     * `Buffer::add`: on an empty vector push and keep the index at 0; otherwise push when the
     * slot after the index is past the end (keeping the index), else overwrite that slot and
     * advance the index. The size becomes at least the index plus one and never shrinks.
     */
    method Add(newVal: T)
      requires |vec| == 0 || curIndex < |vec|
      modifies this
      ensures old(Valid()) ==> Valid()
      ensures vec == if |old(vec)| == 0 then [newVal]
        else if old(curIndex) + 1 == |old(vec)| then old(vec) + [newVal]
        else old(vec)[old(curIndex) + 1 := newVal]
      ensures curIndex == if |old(vec)| == 0 || old(curIndex) + 1 == |old(vec)| then old(curIndex) else old(curIndex) + 1
      ensures curSize == Max(old(curSize), curIndex + 1)
      ensures curSize >= old(curSize)
    {
      if |vec| == 0 {
        vec := vec + [newVal];
      } else if curIndex + 1 == |vec| {
        vec := vec + [newVal];
      } else {
        vec := vec[curIndex + 1 := newVal];
        curIndex := curIndex + 1;
      }
      curSize := Max(curSize, curIndex + 1);
    }

    /**
     * `Buffer::add_to_end`: on an empty vector `add`, otherwise push at or write just past the
     * end of the used part; in both cases the size then grows by one and the index is kept. The
     * write past the used part needs that part to lie within the vector.
     */
    method AddToEnd(newVal: T)
      requires |vec| == 0 || curSize <= |vec|
      modifies this
      ensures curIndex == old(curIndex)
      ensures curSize == (if |old(vec)| == 0 then Max(old(curSize), old(curIndex) + 1) else old(curSize)) + 1
      ensures |old(vec)| == 0 ==> vec == [newVal]
      ensures |old(vec)| > 0 ==> vec == if old(curSize) == |old(vec)| then old(vec) + [newVal] else old(vec)[old(curSize) := newVal]
      ensures |old(vec)| > 0 && old(Valid()) ==> Valid()
    {
      if |vec| == 0 {
        Add(newVal);
      } else if curSize == |vec| {
        vec := vec + [newVal];
      } else {
        vec := vec[curSize := newVal];
      }
      curSize := curSize + 1;
    }

    /** `Buffer::get_slice`: the used part, the first `cur_size` elements. */
    function GetSlice(): (r: seq<T>)
      requires curSize <= |vec|
      reads this
      ensures |r| == curSize && forall i :: 0 <= i < curSize ==> r[i] == vec[i]
    {
      vec[..curSize]
    }

    /**
     * `Buffer::get_ref`: element `index` of the vector; `check_index` panics at or past
     * `cur_size`, and indexing panics past the vector's end.
     */
    function GetRef(index: nat): (r: T)
      requires index < curSize && index < |vec|
      reads this
      ensures r == vec[index]
      ensures curSize <= |vec| ==> r == GetSlice()[index]
    {
      vec[index]
    }

    /**
     * `Buffer::set`: overwrite element `index` of the vector; `check_index` panics at or past
     * `cur_size`, and indexing panics past the vector's end.
     */
    method Set(index: nat, value: T)
      requires index < curSize && index < |vec|
      modifies this
      ensures vec == old(vec)[index := value]
      ensures curIndex == old(curIndex) && curSize == old(curSize)
      ensures old(Valid()) ==> Valid()
      ensures curSize <= |vec| ==> GetSlice() == old(GetSlice())[index := value]
    {
      vec := vec[index := value];
    }

    /** `Buffer::clear`: forget the used part; the vector keeps its elements for reuse. */
    method Clear()
      modifies this
      ensures Valid() && vec == old(vec) && curIndex == 0 && curSize == 0
      ensures GetSlice() == []
    {
      curIndex := 0;
      curSize := 0;
    }

    /** `Buffer::to_beginning`: move the index back to 0, keeping the used part. */
    method ToBeginning()
      modifies this
      ensures vec == old(vec) && curSize == old(curSize) && curIndex == 0
      ensures old(Valid()) ==> Valid()
    {
      curIndex := 0;
    }
  }

  /** Three adds to a new buffer, as written: the second value is lost. */
  method AddThreeAsWritten() returns (slice: seq<int>)
    ensures slice == [1, 3]
  {
    var b := new Buffer<int>();
    b.Add(1);
    b.Add(2);
    b.Add(3);
    slice := b.GetSlice();
  }

  /**
   * `add_to_end` on a new buffer, as written: one element is stored but the size says two, so
   * `get_slice` would index past the end of the vector.
   */
  method AddToEndOnEmptyAsWritten() returns (size: nat, stored: nat)
    ensures size == 2 && stored == 1
  {
    var b := new Buffer<int>();
    b.AddToEnd(1);
    size, stored := b.curSize, |b.vec|;
  }

  /**
   * The state `add_to_end` leaves on a new buffer, as written, still answers `get_ref(0)` and
   * `set(0, _)`, and `clear` recovers from it: the next `add_to_end` reuses the stored slot and
   * the used part is exactly that value.
   */
  method ClearRecoversAsWritten() returns (first: int, slice: seq<int>)
    ensures first == 7 && slice == [5]
  {
    var b := new Buffer<int>();
    b.AddToEnd(1);
    b.Set(0, 7);
    first := b.GetRef(0);
    b.Clear();
    b.AddToEnd(5);
    slice := b.GetSlice();
  }

  /**
   * The buffer as intended: `curIndex` is the next position to write, `add` writes there and
   * advances it, and `add_to_end` appends after the used part.
   */
  class CorrectedBuffer<T> {
    var vec: seq<T>
    var curIndex: nat
    var curSize: nat

    /** The index lies within the used part, which lies within the vector. */
    predicate Valid()
      reads this
    {
      curIndex <= curSize <= |vec|
    }

    /** The used part, the first `curSize` elements. */
    function GetSlice(): (r: seq<T>)
      requires Valid()
      reads this
      ensures |r| == curSize
    {
      vec[..curSize]
    }

    constructor ()
      ensures Valid() && GetSlice() == [] && curIndex == 0
    {
      vec := [];
      curIndex := 0;
      curSize := 0;
    }

    /**
     * `add`: write at the index and advance it. At the end of the used part this appends to the
     * used part; inside it, it overwrites the element at the index.
     */
    method Add(newVal: T)
      requires Valid()
      modifies this
      ensures Valid() && curIndex == old(curIndex) + 1
      ensures GetSlice() == if old(curIndex) == old(curSize) then old(GetSlice()) + [newVal]
        else old(GetSlice())[old(curIndex) := newVal]
    {
      if curIndex < |vec| {
        vec := vec[curIndex := newVal];
      } else {
        vec := vec + [newVal];
      }
      curIndex := curIndex + 1;
      curSize := Max(curSize, curIndex);
    }

    /** `add_to_end`: append after the used part, keeping the index. */
    method AddToEnd(newVal: T)
      requires Valid()
      modifies this
      ensures Valid() && curIndex == old(curIndex)
      ensures GetSlice() == old(GetSlice()) + [newVal]
    {
      if curSize == |vec| {
        vec := vec + [newVal];
      } else {
        vec := vec[curSize := newVal];
      }
      curSize := curSize + 1;
    }

    /** `clear`: forget the used part. */
    method Clear()
      requires Valid()
      modifies this
      ensures Valid() && curIndex == 0 && GetSlice() == []
    {
      curIndex := 0;
      curSize := 0;
    }
  }

  /** Three adds to a new buffer, as intended: all three values are kept, in order. */
  method AddThree() returns (slice: seq<int>)
    ensures slice == [1, 2, 3]
  {
    var b := new CorrectedBuffer<int>();
    b.Add(1);
    b.Add(2);
    b.Add(3);
    slice := b.GetSlice();
  }

  /** `add_to_end` on a new buffer, as intended: the one value, counted once. */
  method AddToEndOnEmpty() returns (slice: seq<int>)
    ensures slice == [1]
  {
    var b := new CorrectedBuffer<int>();
    b.AddToEnd(1);
    slice := b.GetSlice();
  }

  /** After `clear`, a run of adds fills the used part with exactly those values. */
  method ReuseAfterClear(b: CorrectedBuffer<int>) returns (slice: seq<int>)
    requires b.Valid()
    modifies b
    ensures slice == [4, 5]
  {
    b.Clear();
    b.Add(4);
    b.Add(5);
    slice := b.GetSlice();
  }
}
