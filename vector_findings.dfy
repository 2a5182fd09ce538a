/** dsc_vector_reserve, dsc_vector_push_back and dsc_vector_insert as the C
    code is written. All three detect a failed dsc_vector_resize by testing
    the buffer pointer for NULL, but a refused resize returns without
    touching the buffer, so the old non-null pointer stays and the test never
    fires. The methods of DscVector use the refusal that Resize reports
    instead; the functions here keep the written behaviour so that the
    difference can be stated. */
module DscVectorAsWritten {
  import opened DscError
  import opened DscVector

  /** dsc_vector_reserve as written, on a non-null vector of `capacity`:
      the capacity afterwards and the error reported. A refused resize keeps
      the capacity, yet the request is reported as NONE. */
  function ReserveAsWritten(capacity: nat, newCapacity: nat): (r: (nat, Error))
    ensures r.1 == None <==> capacity < newCapacity
    ensures r.1 == None && MAX_ELEMENTS < newCapacity ==> r.0 == capacity
  {
    if newCapacity <= capacity then (capacity, InvalidArgument)
    else if MAX_ELEMENTS < newCapacity then (capacity, None)
    else (newCapacity, None)
  }

  /** reserve(SIZE_MAX) on a vector of capacity 16 reports success and
      leaves the capacity at 16. */
  lemma ReserveAsWrittenReportsFalseSuccess()
    ensures ReserveAsWritten(16, SIZE_MAX) == (16, None)
  {
  }

  /** The effect of the growth step and the element write of push_back, or
      of insert at a position not past the end, as written: the length of
      the buffer after the growth step, the highest index then written and
      the error reported. */
  datatype GrowAndWrite = GrowAndWrite(bufferLength: nat, writeIndex: nat, err: Error)

  /** Both push_back (line 104) and insert (lines 146-150) write index `size`
      after the growth step, and both report NONE. */
  function GrowAndWriteAsWritten(size: nat, capacity: nat): (r: GrowAndWrite)
    ensures r.writeIndex == size && r.err == None
    ensures GrowthRefused(size, capacity) ==> r.bufferLength == capacity
    ensures !GrowthRefused(size, capacity) ==> r.bufferLength == CapacityAfterGrowth(size, capacity)
  {
    var length := if capacity <= size && Grown(capacity) <= MAX_ELEMENTS then Grown(capacity) else capacity;
    GrowAndWrite(length, size, None)
  }

  /** A full vector of MAX_ELEMENTS elements, the model's stand-in for a full
      vector whose growth allocation at line 40 fails (in the program a
      failed malloc leaves the buffer as a refusal does): push_back, and
      insert at any position, write index `size` (by the shift at line 147,
      or by the value itself at line 150 when the position is `size`), one
      past the end of the buffer, and both report NONE. */
  lemma GrowAndWriteAsWrittenOverruns()
    ensures var r := GrowAndWriteAsWritten(MAX_ELEMENTS, MAX_ELEMENTS);
            r.bufferLength <= r.writeIndex && r.err == None
  {
  }
}
