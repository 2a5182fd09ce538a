# Verified model of the libdsc integer vector

This project models the dynamic integer vector of libdsc (`src/dsc_vector.c`)
in Dafny and proves its operations against their specifications.

A vector is a heap struct with three fields:

- `values`, a buffer of `capacity` ints;
- `size`, the number of live elements;
- `capacity`.

The model is the class `DscVector.Vector`, with exactly those fields and an
`array<int>` for the buffer. The object invariant `Valid()` says:

- `size <= capacity`;
- `values.Length == capacity`;
- `2 <= capacity <= MAX_ELEMENTS`.

`Contents()` is the live prefix `values[..size]`.

The C functions take a handle that may be `NULL`. So the operations are
module-level methods over `Vector?`, one per C function:

- a null handle returns `InvalidArgument` and changes nothing;
- each other outcome is stated against `old(Contents())` and the old capacity.

Every C function writes one code to a process-wide error slot. Here each
method returns that code (`DscError.Error`) instead. The static
`dsc_vector_resize` writes the slot only when it fails, so `Resize` returns
whether it refused.

Integer widths follow an LP64 platform. `size_t` is 64 bits and `sizeof(int)`
is 4, so `MAX_ELEMENTS = SIZE_MAX / 4 = 2^62 - 1`. Every size and capacity the
invariant admits fits in a `size_t`, so `size + 1` never wraps.

The growth step `capacity * 1.5` is `Grown(c) = floor(1.5 * c)`. This matches the
C code's double-precision product for every capacity below 3002399751580333
(about 2^53 / 3). Its contract
says it grows strictly exactly when `c >= 2`.

The shifting loops of insert (lines 146-148) and erase (lines 169-171) stay
`while` loops, with invariants saying which part of the buffer has been
shifted. Two pure functions specify them:

- `InsertAt(s, p, x) = s[..p] + [x] + s[p..]`;
- `RemoveAt(s, p) = s[..p] + s[p+1..]`.

Their contracts describe each element's new index. Lemmas relate them:

- they undo each other;
- insert at the end is push_back, and erase of the last element is pop_back;
- insert adds one occurrence of the new value, and erase removes one
  occurrence of the erased value (multiset equalities).

`vector_client.dfy` holds caller scenarios that verify from the contracts
alone:

- growth from capacity 2 to 3;
- refused out-of-range inserts and erases;
- reserve and pop_back down to empty;
- null handles.

Files:

- `dsc_error.dfy`: the error codes;
- `dsc_vector.dfy`: the vector, its operations and lemmas;
- `vector_findings.dfy`: the three paths whose written behaviour differs
  from what is evidently intended (see Findings);
- `vector_client.dfy`: the client scenarios.

## Model

| member | source | states |
|---|---|---|
| `DscVector.Grown` | src/dsc_vector.c:96 | the requested capacity is floor(1.5 * capacity); it is strictly larger when capacity >= 2 and equal when capacity <= 1 |
| `DscVector.CapacityAfterGrowth` | src/dsc_vector.c:94-102 | when growth is not refused, the capacity does not shrink and stays within MAX_ELEMENTS; it leaves room for one more element; it is unchanged when the buffer was not full |
| `DscVector.InsertAt` | src/dsc_vector.c:145-151 | the result is one longer; it has `x` at `p`, the old elements before `p` in place, and those from `p` on one index to the right |
| `DscVector.RemoveAt` | src/dsc_vector.c:168-173 | the result is one shorter; it keeps the elements before `p` in place and moves those after `p` one index to the left |
| `DscVector.EraseUndoesInsert` | src/dsc_vector.c:124-175 | erase at the position just inserted at restores the old elements |
| `DscVector.InsertUndoesErase` | src/dsc_vector.c:124-175 | inserting the erased element back at its position restores the old elements |
| `DscVector.InsertAtEndAppends` | src/dsc_vector.c:104-105 | insert at position `size` appends, as push_back does |
| `DscVector.RemoveLastDropsLast` | src/dsc_vector.c:163-173 | erase at position `size - 1` drops the last element, as pop_back does |
| `DscVector.InsertAtAddsOne` | src/dsc_vector.c:145-151 | the right shift loses and duplicates nothing: the multiset gains exactly the inserted value |
| `DscVector.RemoveAtDropsOne` | src/dsc_vector.c:168-173 | the left shift loses and duplicates nothing: the multiset loses exactly the erased value |
| `DscVector.GrowthRefused` | src/dsc_vector.c:94-97 | growth is refused (the line-35 test on floor(1.5 * capacity)) only for a full buffer above two thirds of MAX_ELEMENTS, and always for a full buffer above MAX_ELEMENTS |
| `DscVector.Vector.Valid` | src/dsc_vector.c:27-31 | the struct invariant: the live prefix fits in the buffer of `capacity` ints, and such a capacity can always grow |
| `DscVector.Vector.Contents` | src/dsc_vector.c:27-31 | the live elements are the first `size` ints of the buffer, in order |
| `DscVector.Vector.Allocate` | src/dsc_vector.c:56-63 | the new struct has size 0, the given capacity and no element buffer yet |
| `DscVector.Resize` | src/dsc_vector.c:33-53 | a request above SIZE_MAX / sizeof(int) is refused and changes nothing; otherwise a fresh buffer of the requested capacity holds the same live prefix, and size is unchanged |
| `DscVector.Create` | src/dsc_vector.c:55-74 | a fresh valid vector with no elements and capacity DSC_VECTOR_INITIAL_CAPACITY, and error NONE |
| `DscVector.GrowIfFull` | src/dsc_vector.c:94-102 | a full buffer grows to floor(1.5 * capacity) unless that is refused; the elements are kept; afterwards there is room for one more element unless the growth was refused |
| `DscVector.PushBack` | src/dsc_vector.c:88-107 | a null handle gives INVALID_ARGUMENT; otherwise the contents become old contents + [value], capacity grows only when full, and the error is NONE; when growth is refused the result is OUT_OF_MEMORY with nothing changed (see Findings) |
| `DscVector.PopBack` | src/dsc_vector.c:109-122 | a null handle gives INVALID_ARGUMENT; an empty vector gives EMPTY_CONTAINER and is unchanged; otherwise the last element is dropped and the prefix and capacity are kept, with error NONE |
| `DscVector.Insert` | src/dsc_vector.c:124-155 | a null handle gives 0 and INVALID_ARGUMENT; position > size gives 0 and OUT_OF_RANGE with no change; otherwise the contents become old[..pos] + [v] + old[pos..] and the result is pos, with error NONE; refused growth gives OUT_OF_MEMORY with no change (see Findings) |
| `DscVector.Erase` | src/dsc_vector.c:157-175 | a null handle gives INVALID_ARGUMENT; position >= size gives OUT_OF_RANGE with vector and buffer unchanged; otherwise the contents become old[..pos] + old[pos+1..] in the same buffer, with error NONE |
| `DscVector.At` | src/dsc_vector.c:177-190 | index < size returns that element with NONE; otherwise 0 with OUT_OF_RANGE; a null handle gives 0 with INVALID_ARGUMENT; nothing is modified |
| `DscVector.Empty` | src/dsc_vector.c:192-200 | true exactly when there are no elements, with NONE; a null handle gives true and INVALID_ARGUMENT |
| `DscVector.Size` | src/dsc_vector.c:202-210 | the number of live elements with NONE; a null handle gives 0 and INVALID_ARGUMENT |
| `DscVector.Capacity` | src/dsc_vector.c:212-220 | the buffer length, which is at least the number of elements, with NONE; a null handle gives 0 and INVALID_ARGUMENT |
| `DscVector.Reserve` | src/dsc_vector.c:222-240 | a null handle or a capacity not above the current one gives INVALID_ARGUMENT and changes nothing; otherwise the capacity becomes the requested one, the elements are kept, and the error is NONE; a request above SIZE_MAX / sizeof(int) gives OUT_OF_MEMORY with no change (see Findings) |
| `DscVectorAsWritten.ReserveAsWritten` | src/dsc_vector.c:222-240 | as written, reserve reports NONE whenever the request is above the capacity, even when resize refused it and the capacity did not change |
| `DscVectorAsWritten.ReserveAsWrittenReportsFalseSuccess` | src/dsc_vector.c:233-239 | reserve(SIZE_MAX) on a vector of capacity 16 reports NONE and leaves the capacity at 16 |
| `DscVectorAsWritten.GrowAndWriteAsWritten` | src/dsc_vector.c:95-105 | as written, push_back and insert always write index `size` and report NONE; after refused growth the buffer keeps its old length |
| `DscVectorAsWritten.GrowAndWriteAsWrittenOverruns` | src/dsc_vector.c:95-105 | with size = capacity = MAX_ELEMENTS (the model's stand-in for a failed growth allocation), the index written is not inside the buffer, yet NONE is reported |

## Findings

| source | as written | input that shows it | evidently intended | confidence | as-written member | corrected member |
|---|---|---|---|---|---|---|
| src/dsc_vector.c:233-239 | a refused resize leaves the old non-null buffer, so the NULL test never fires and NONE overwrites OUT_OF_MEMORY | `dsc_vector_reserve(v, SIZE_MAX)` on any vector | report OUT_OF_MEMORY, capacity unchanged | not executed; high | `DscVectorAsWritten.ReserveAsWrittenReportsFalseSuccess` | `DscVector.Reserve` |
| src/dsc_vector.c:95-106 | after a refused growth the NULL test never fires; `values[size]` is written one past the end, and NONE is reported | push_back on a full vector whose growth `malloc` at line 40 returns NULL; in the model, whose allocation never fails, a full vector of capacity MAX_ELEMENTS stands in for it | report OUT_OF_MEMORY, write nothing | not executed; medium (a failed malloc in resize takes the same path) | `DscVectorAsWritten.GrowAndWriteAsWrittenOverruns` | `DscVector.PushBack` |
| src/dsc_vector.c:136-150 | the same NULL test as in push_back; index `size` is written one past the end, by the shift at line 147 or by the value itself at line 150 when pos == size, and NONE is reported | insert(v, pos, x) with pos <= size on a full vector whose growth `malloc` at line 40 returns NULL; the same MAX_ELEMENTS stand-in in the model | report OUT_OF_MEMORY, write nothing | not executed; medium (a failed malloc in resize takes the same path) | `DscVectorAsWritten.GrowAndWriteAsWrittenOverruns` | `DscVector.Insert` |

## Left out

- `dsc_vector_free` (lines 76-86) only releases memory. With no allocator in the model, nothing is left to state beyond the null check.
- Allocation failure (lines 40-44, 56-60, 66-70) is not modelled. Allocation always succeeds with a fresh array, so `Create` never returns a null handle.
- `Create` reads the uninitialised `values` field at lines 46 and 66. The model cannot express that: `Vector.Allocate` gives the struct an empty buffer, and the first resize copies zero elements from it. For the same reason, the model's buffer is never null, so the `values != NULL` test at line 46 always passes.
- Create: requires `2 <= initialCapacity <= MAX_ELEMENTS`. `DSC_VECTOR_INITIAL_CAPACITY` is defined in `include/dsc_vector.h`, which is not part of this model, so the capacity is a parameter. A capacity of 0 or 1 would never grow (`Grown` proves it), and the invariant `Valid()` excludes it.
- Grown: the C code multiplies in double precision and truncates. Once 3 * capacity reaches 2^53, the exact product 1.5 * capacity of an odd capacity is a half-integer that a double cannot hold. Rounding to even can then carry it up one. The first capacity where the C result differs from floor(1.5 * capacity) is 3002399751580333, about 2^53 / 3; for example, capacity 2^52 + 1 gives 6755399441055746 in C and 6755399441055745 here. The model uses the exact integer.
- `PushBack`, `Insert` and `Reserve` follow the evidently intended behaviour when a resize is refused, not the written one (see Findings).
- The process-wide error slot (`dsc_set_error`, declared in `dsc_error.h`, which is not part of this model) is replaced by a returned error code.
- The `position < 0` and `index < 0` tests (lines 130, 163, 183) compare a `size_t` and are always false. Positions are `nat`.
- Elements are unbounded `int` rather than 32-bit `int`. The vector only stores and moves them, so the width does not matter.
- The hash set of `include/dsc_set.h` is not modelled. The header only declares it, and no implementation is available to check it against.
