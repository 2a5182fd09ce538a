/** The dynamic integer vector of src/dsc_vector.c: a heap buffer `values`
    of `capacity` ints whose first `size` entries are the live elements.
    The public operations take a handle that may be null, so they are
    module-level methods over `Vector?`, as the C functions are; each returns
    the error code the C function writes to the library's error slot. */
module DscVector {
  import opened DscError

  /** Width of size_t and of int on an LP64 platform. */
  const SIZE_MAX: nat := 0xFFFF_FFFF_FFFF_FFFF
  const SIZEOF_INT: nat := 4

  /** The largest element count whose byte size `n * sizeof(int)` still fits in
      a size_t; dsc_vector_resize refuses anything larger. */
  const MAX_ELEMENTS: nat := SIZE_MAX / SIZEOF_INT

  // ---------------------------------------------------------------------
  // Specification functions on values
  // ---------------------------------------------------------------------

  /** The capacity `capacity * 1.5` that push_back and insert request when
      the buffer is full, truncated to an integer: floor(1.5 * capacity).
      The C code's double product equals this for every capacity below
      3002399751580333 (about 2^53 / 3). It is strictly larger only from
      capacity 2 on. */
  function Grown(capacity: nat): (r: nat)
    ensures 2 * r <= 3 * capacity < 2 * r + 2
    ensures 2 <= capacity ==> capacity < r
    ensures capacity <= 1 ==> r == capacity
  {
    capacity + capacity / 2
  }

  /** A full buffer whose grown capacity dsc_vector_resize would refuse
      (lines 35 and 95-96). It happens only to a full buffer that already
      holds more than two thirds of MAX_ELEMENTS, and always to a full one
      above MAX_ELEMENTS. */
  predicate GrowthRefused(size: nat, capacity: nat): (r: bool)
    ensures r ==> capacity <= size && 2 * MAX_ELEMENTS < 3 * capacity
    ensures capacity <= size && MAX_ELEMENTS < capacity ==> r
  {
    capacity <= size && MAX_ELEMENTS < Grown(capacity)
  }

  /** The capacity after a push_back or insert that is not refused. */
  function CapacityAfterGrowth(size: nat, capacity: nat): (r: nat)
    requires !GrowthRefused(size, capacity)
    ensures capacity <= r
    ensures capacity <= MAX_ELEMENTS ==> r <= MAX_ELEMENTS
    ensures size <= capacity && 2 <= capacity ==> size < r
    ensures size < capacity ==> r == capacity
  {
    if capacity <= size then Grown(capacity) else capacity
  }

  /** `s` with `x` placed at index `p` and the elements from `p` on shifted
      one place to the right (the loop of dsc_vector_insert). */
  function InsertAt(s: seq<int>, p: nat, x: int): (r: seq<int>)
    requires p <= |s|
    ensures |r| == |s| + 1 && r[p] == x
    ensures forall k :: 0 <= k < p ==> r[k] == s[k]
    ensures forall k :: p < k < |r| ==> r[k] == s[k - 1]
  {
    s[..p] + [x] + s[p..]
  }

  /** `s` without its element at index `p`, the later elements shifted one
      place to the left (the loop of dsc_vector_erase). */
  function RemoveAt(s: seq<int>, p: nat): (r: seq<int>)
    requires p < |s|
    ensures |r| == |s| - 1
    ensures forall k :: 0 <= k < p ==> r[k] == s[k]
    ensures forall k :: p <= k < |r| ==> r[k] == s[k + 1]
  {
    s[..p] + s[p + 1..]
  }

  /** Erasing at the index just inserted at gives the original elements back. */
  lemma EraseUndoesInsert(s: seq<int>, p: nat, x: int)
    requires p <= |s|
    ensures RemoveAt(InsertAt(s, p, x), p) == s
  {
  }

  /** Putting an erased element back where it was restores the elements. */
  lemma InsertUndoesErase(s: seq<int>, p: nat)
    requires p < |s|
    ensures InsertAt(RemoveAt(s, p), p, s[p]) == s
  {
  }

  /** insert at position `size` does what push_back does. */
  lemma InsertAtEndAppends(s: seq<int>, x: int)
    ensures InsertAt(s, |s|, x) == s + [x]
  {
  }

  /** erase at position `size - 1` does what pop_back does. */
  lemma RemoveLastDropsLast(s: seq<int>)
    requires s != []
    ensures RemoveAt(s, |s| - 1) == s[..|s| - 1]
  {
  }

  /** The right shift neither loses nor duplicates an element: insert adds
      exactly one occurrence of the new value. */
  lemma InsertAtAddsOne(s: seq<int>, p: nat, x: int)
    requires p <= |s|
    ensures multiset(InsertAt(s, p, x)) == multiset(s) + multiset{x}
  {
    assert s == s[..p] + s[p..];
  }

  /** The left shift neither loses nor duplicates an element: erase removes
      exactly one occurrence of the erased value. */
  lemma RemoveAtDropsOne(s: seq<int>, p: nat)
    requires p < |s|
    ensures multiset(RemoveAt(s, p)) == multiset(s) - multiset{s[p]}
  {
    assert s == s[..p] + [s[p]] + s[p + 1..];
  }

  // ---------------------------------------------------------------------
  // The vector object
  // ---------------------------------------------------------------------

  class Vector {
    var values: array<int>
    var size: nat
    var capacity: nat

    /** The struct as dsc_vector_create has it just before its first resize:
        size 0, capacity set, no element buffer yet (an empty array). */
    constructor Allocate(initialCapacity: nat)
      ensures size == 0 && capacity == initialCapacity && values.Length == 0
    {
      values := new int[0];
      size := 0;
      capacity := initialCapacity;
    }

    /** Object invariant: the buffer holds exactly `capacity` ints, the live
        prefix fits in it, and the capacity can grow and fits a size_t. */
    ghost predicate Valid()
      reads this
      ensures Valid() ==> size <= values.Length && capacity < Grown(capacity)
    {
      size <= capacity && values.Length == capacity && 2 <= capacity <= MAX_ELEMENTS
    }

    /** The live elements, in order. */
    ghost function Contents(): (s: seq<int>)
      reads this, values
      requires Valid()
      ensures |s| == size <= capacity
      ensures forall i :: 0 <= i < |s| ==> s[i] == values[i]
    {
      values[..size]
    }
  }

  /** What an operation on handle `v` may change. */
  ghost function Footprint(v: Vector?): set<object>
    reads v
  {
    if v == null then {} else {v as Vector, v.values}
  }

  // ---------------------------------------------------------------------
  // Operations
  // ---------------------------------------------------------------------

  /** dsc_vector_resize: replace the buffer by one of `newCapacity` ints that
      starts with the live elements. A request whose byte size overflows a
      size_t is refused and changes nothing (the C function then writes
      OUT_OF_MEMORY; on success it writes nothing). */
  method Resize(v: Vector, newCapacity: nat) returns (refused: bool)
    requires v.size <= v.values.Length && v.size <= newCapacity
    modifies v
    ensures refused <==> MAX_ELEMENTS < newCapacity
    ensures refused ==> unchanged(v)
    ensures !refused ==> fresh(v.values) && v.values.Length == newCapacity
                         && v.capacity == newCapacity && v.size == old(v.size)
                         && v.values[..v.size] == old(v.values[..v.size])
  {
    if MAX_ELEMENTS < newCapacity {
      return true;
    }
    var newValues := new int[newCapacity];
    forall i | 0 <= i < v.size {
      newValues[i] := v.values[i];
    }
    v.values := newValues;
    v.capacity := newCapacity;
    refused := false;
  }

  /** dsc_vector_create: an empty vector whose buffer holds
      `initialCapacity` (DSC_VECTOR_INITIAL_CAPACITY) ints. */
  method Create(initialCapacity: nat) returns (v: Vector, err: Error)
    requires 2 <= initialCapacity <= MAX_ELEMENTS
    ensures fresh(v) && fresh(v.values)
    ensures v.Valid() && v.Contents() == [] && v.capacity == initialCapacity
    ensures err == None
  {
    v := new Vector.Allocate(initialCapacity);
    var _ := Resize(v, v.capacity);
    err := None;
  }

  /** Grow a full buffer to Grown(capacity) before an element is added; the
      shared first half of dsc_vector_push_back and dsc_vector_insert.
      Reports whether the growth was refused, in which case nothing changed. */
  method GrowIfFull(v: Vector) returns (refused: bool)
    requires v.Valid()
    modifies v
    ensures v.Valid() && v.size == old(v.size) && v.Contents() == old(v.Contents())
    ensures v.values == old(v.values) || fresh(v.values)
    ensures refused == GrowthRefused(old(v.size), old(v.capacity))
    ensures refused ==> unchanged(v)
    ensures !refused ==> v.capacity == CapacityAfterGrowth(old(v.size), old(v.capacity))
                         && v.size < v.capacity
  {
    refused := false;
    if v.size >= v.capacity {
      refused := Resize(v, Grown(v.capacity));
    }
  }

  /** dsc_vector_push_back: append `value`, growing a full buffer first. */
  method PushBack(v: Vector?, value: int) returns (err: Error)
    requires v != null ==> v.Valid()
    modifies Footprint(v)
    ensures v == null ==> err == InvalidArgument
    ensures v != null ==> v.Valid() && (v.values == old(v.values) || fresh(v.values))
    ensures v != null ==> (err == OutOfMemory <==> GrowthRefused(old(v.size), old(v.capacity)))
    ensures v != null && err == OutOfMemory ==> unchanged(v, old(v.values)) && v.Contents() == old(v.Contents())
    ensures v != null && err != OutOfMemory ==>
              err == None && v.Contents() == old(v.Contents()) + [value]
              && v.capacity == CapacityAfterGrowth(old(v.size), old(v.capacity))
  {
    if v == null {
      return InvalidArgument;
    }
    var refused := GrowIfFull(v);
    if refused {
      return OutOfMemory;
    }
    v.values[v.size] := value;
    v.size := v.size + 1;
    err := None;
  }

  /** dsc_vector_pop_back: drop the last element; an empty vector reports
      EMPTY_CONTAINER and stays as it is. */
  method PopBack(v: Vector?) returns (err: Error)
    requires v != null ==> v.Valid()
    modifies v
    ensures v == null ==> err == InvalidArgument
    ensures v != null ==> v.Valid() && v.values == old(v.values) && v.capacity == old(v.capacity)
    ensures v != null ==> (err == EmptyContainer <==> old(v.Contents()) == [])
    ensures v != null && err == EmptyContainer ==> v.size == old(v.size)
    ensures v != null && err != EmptyContainer ==>
              err == None && v.Contents() == old(v.Contents())[..old(v.size) - 1]
  {
    if v == null {
      return InvalidArgument;
    }
    var isEmpty, _ := Empty(v);
    if isEmpty {
      return EmptyContainer;
    }
    v.size := v.size - 1;
    err := None;
  }

  /** dsc_vector_insert: put `value` at index `position`, shifting the
      elements from there on to the right; returns `position`. A position
      past the end reports OUT_OF_RANGE, returns 0 and changes nothing. */
  method Insert(v: Vector?, position: nat, value: int) returns (r: nat, err: Error)
    requires v != null ==> v.Valid()
    modifies Footprint(v)
    ensures v == null ==> r == 0 && err == InvalidArgument
    ensures v != null ==> v.Valid() && (v.values == old(v.values) || fresh(v.values))
    ensures v != null ==> (err == OutOfRange <==> old(v.size) < position)
    ensures v != null ==> (err == OutOfMemory <==>
                             position <= old(v.size) && GrowthRefused(old(v.size), old(v.capacity)))
    ensures v != null && (err == OutOfRange || err == OutOfMemory) ==>
              r == 0 && unchanged(v, old(v.values)) && v.Contents() == old(v.Contents())
    ensures v != null && err != OutOfRange && err != OutOfMemory ==>
              err == None && r == position
              && v.Contents() == InsertAt(old(v.Contents()), position, value)
              && v.capacity == CapacityAfterGrowth(old(v.size), old(v.capacity))
  {
    if v == null {
      return 0, InvalidArgument;
    }
    if position > v.size {
      return 0, OutOfRange;
    }
    var refused := GrowIfFull(v);
    if refused {
      return 0, OutOfMemory;
    }
    ghost var s := v.Contents();
    var a := v.values;
    var i := v.size;
    while i > position
      invariant position <= i <= v.size < a.Length
      invariant forall k :: 0 <= k < i ==> a[k] == s[k]
      invariant forall k :: i < k <= v.size ==> a[k] == s[k - 1]
      modifies a
    {
      a[i] := a[i - 1];
      i := i - 1;
    }
    a[position] := value;
    v.size := v.size + 1;
    assert v.Contents() == InsertAt(s, position, value);
    r, err := position, None;
  }

  /** dsc_vector_erase: remove the element at index `position`, shifting the
      later elements to the left. A position outside the live elements
      reports OUT_OF_RANGE and changes nothing. */
  method Erase(v: Vector?, position: nat) returns (err: Error)
    requires v != null ==> v.Valid()
    modifies Footprint(v)
    ensures v == null ==> err == InvalidArgument
    ensures v != null ==> v.Valid() && v.values == old(v.values) && v.capacity == old(v.capacity)
    ensures v != null ==> (err == OutOfRange <==> old(v.size) <= position)
    ensures v != null && err == OutOfRange ==> unchanged(v, v.values)
    ensures v != null && err != OutOfRange ==>
              err == None && v.Contents() == RemoveAt(old(v.Contents()), position)
  {
    if v == null {
      return InvalidArgument;
    }
    if position >= v.size {
      return OutOfRange;
    }
    ghost var s := v.Contents();
    var a := v.values;
    var i := position;
    while i < v.size - 1
      invariant position <= i <= v.size - 1
      invariant forall k :: 0 <= k < position ==> a[k] == s[k]
      invariant forall k :: position <= k < i ==> a[k] == s[k + 1]
      invariant forall k :: i <= k < v.size ==> a[k] == s[k]
      modifies a
    {
      a[i] := a[i + 1];
      i := i + 1;
    }
    v.size := v.size - 1;
    assert v.Contents() == RemoveAt(s, position);
    err := None;
  }

  /** dsc_vector_at: the element at `index`, or 0 with OUT_OF_RANGE. */
  method At(v: Vector?, index: nat) returns (r: int, err: Error)
    requires v != null ==> v.Valid()
    ensures v == null ==> r == 0 && err == InvalidArgument
    ensures v != null ==> (err == None <==> index < |v.Contents()|)
    ensures v != null && index < |v.Contents()| ==> r == v.Contents()[index]
    ensures v != null && |v.Contents()| <= index ==> r == 0 && err == OutOfRange
  {
    if v == null {
      return 0, InvalidArgument;
    }
    if index >= v.size {
      return 0, OutOfRange;
    }
    r, err := v.values[index], None;
  }

  /** dsc_vector_empty: whether there are no elements; a null handle counts
      as empty and reports INVALID_ARGUMENT. */
  method Empty(v: Vector?) returns (r: bool, err: Error)
    requires v != null ==> v.Valid()
    ensures v == null ==> r && err == InvalidArgument
    ensures v != null ==> (r <==> v.Contents() == []) && err == None
  {
    if v == null {
      return true, InvalidArgument;
    }
    r, err := v.size == 0, None;
  }

  /** dsc_vector_size: the number of elements (0 for a null handle). */
  method Size(v: Vector?) returns (r: nat, err: Error)
    requires v != null ==> v.Valid()
    ensures v == null ==> r == 0 && err == InvalidArgument
    ensures v != null ==> r == |v.Contents()| && err == None
  {
    if v == null {
      return 0, InvalidArgument;
    }
    r, err := v.size, None;
  }

  /** dsc_vector_capacity: how many elements fit in the buffer (0 for a
      null handle). */
  method Capacity(v: Vector?) returns (r: nat, err: Error)
    requires v != null ==> v.Valid()
    ensures v == null ==> r == 0 && err == InvalidArgument
    ensures v != null ==> r == v.values.Length && |v.Contents()| <= r && err == None
  {
    if v == null {
      return 0, InvalidArgument;
    }
    r, err := v.capacity, None;
  }

  /** dsc_vector_reserve: grow the buffer to exactly `newCapacity` ints,
      keeping the elements. A capacity that is not larger reports
      INVALID_ARGUMENT; one whose byte size overflows reports OUT_OF_MEMORY;
      neither changes anything. */
  method Reserve(v: Vector?, newCapacity: nat) returns (err: Error)
    requires v != null ==> v.Valid()
    modifies v
    ensures v == null ==> err == InvalidArgument
    ensures v != null ==> v.Valid() && v.Contents() == old(v.Contents())
    ensures v != null ==> (err == InvalidArgument <==> newCapacity <= old(v.capacity))
    ensures v != null ==> (err == OutOfMemory <==> old(v.capacity) < newCapacity && MAX_ELEMENTS < newCapacity)
    ensures v != null ==> (err == None <==> old(v.capacity) < newCapacity <= MAX_ELEMENTS)
    ensures v != null && err != None ==> unchanged(v)
    ensures v != null && err == None ==> fresh(v.values) && v.capacity == newCapacity
  {
    if v == null {
      return InvalidArgument;
    }
    if newCapacity <= v.capacity {
      return InvalidArgument;
    }
    var refused := Resize(v, newCapacity);
    if refused {
      return OutOfMemory;
    }
    err := None;
  }
}
