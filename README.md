# Catorce_Linear containers in Dafny

A model of the two growable, single-owner containers of Catorce_Linear. The
two are independent, and they reuse the same C function names, so each
one is its own Dafny module:

- **`Vector`** (vector.c) is the type-tagged vector `vec`. Its `size` is both
  length and capacity. The element width follows from the `type` tag
  (`get_data_size`). `replace` overwrites a slot in place. `append`,
  `upsize` and `downsize` build a new `vec`, copy the slots over in a loop
  and return it instead of the old one. When they cannot, they return the
  original. `contains` scans linearly with a caller comparator, or falls
  back to `strncmp` over `data_size` bytes.
- **`ArrayList`** (array_list.c) is the pointer-slot list `arl`. It has a real
  `size` and `capacity`. Live deep copies sit in slots `[0, size)` and NULL
  in `[size, capacity)`. `append` doubles the capacity when the list is
  full. `delete` shifts the tail down and halves the capacity once `size`
  falls to `capacity / 2`.
- **`Common`** holds the shared vocabulary: bytes, and `Option` for a pointer
  that may be NULL.

How the model is built:

- Each container is a class. `Vector.Vec` keeps its fields `const`, because
  vector.c never reassigns them after `init_vec`. `ArrayList.Arl` has a
  mutable `size`.
- A slot holds the bytes of one element. In `Vec`, every slot is
  `DataSize(dataType)` bytes long. In `Arl`, a slot is `Option<Bytes>`, and
  `None` is NULL.
- `Valid()` is each class's invariant, and `Elements()` is its abstract
  contents.
- Every operation is a module-level method. It takes the container as a
  possibly-null reference, as the C functions do.
- Operations that build a new container promise either the same object or
  a `fresh` one. Either way, they state the size or capacity and the
  elements of the result.
- A failed `malloc` is the boolean parameter `allocOk`. When it is false,
  the call takes the source's failure path.

Where the documentation comments and the code disagree, or the code is easy
to misread, the model follows the code:

- The width of NO_TYPE is `sizeof(void)`. Standard C leaves that undefined;
  GCC makes it 1, and so does the model.
- `init_vec` does not zero its slots, although vector.h:67 speaks of padded
  0s. So nothing is promised about slots that no element was copied into,
  including the padding after a double-grow `append`.
- In the array list, `replace` appends when `index == size + 1`, and the
  write goes to position `size`. It does not append when `index == size`.
- `delete` rejects only `index > capacity`. An index equal to `capacity`
  reads past the end of the slot array, so a precondition excludes it.
- The array list's `downsize` copies the first `capacity / 2` slots. Called
  directly on a list with more than `capacity / 2` elements, it drops the
  tail. `delete` never calls it in that state.
- The default equality of `contains` is `strncmp`, not exact equality. See
  Findings below.

## Model

| member | source | states |
|---|---|---|
| Vector.DataSize | vector.c:187-211 | a width is 0 exactly for a tag outside the enum (the `default` arm; `ValidTag` keeps `Unlisted` to values other than 0..5); NO_TYPE and CHAR are 1 byte wide; no width exceeds 8 bytes |
| Vector.FlattenLength | vector.c:43 | n elements of w bytes each, laid end to end, occupy w*n bytes |
| Vector.ByteSize | vector.c:222-228 | `byte_size` is 0 for a NULL vector, and otherwise the number of bytes the live elements occupy laid end to end |
| Vector.InitVec | vector.c:29-52 | NULL exactly when `init_size` is 0 or allocation fails; otherwise a fresh valid vector with the given size, type and fixed_length |
| Vector.Replace | vector.c:116-126 | true exactly when data and v are non-NULL, index < size and the type is not NO_TYPE; then only slot `index` changes, to the copied bytes; on false, nothing changes |
| Vector.StrnEqThroughNul | vector.c:154 | `strncmp(a, b, n) == 0` exactly when a and b agree on all n bytes, or up to and including a NUL byte they share |
| Vector.Contains | vector.c:140-158 | true exactly when data and v are non-NULL, the vector is typed or a comparator is given, and some slot below `size` matches: the comparator gives 0, or else `strncmp` equality over the element width |
| Vector.NulStopsComparison | vector.c:154 | the default equality takes the INT32 element 256 for a match of 0, although their bytes differ |
| Vector.ExactMatchIsStrnMatch | vector.c:154 | whatever byte-for-byte equality accepts, the `strncmp` equality accepts too |
| Vector.ContainsExact | vector.c:140-158 | as Contains, but the default equality compares every byte of the element |
| Vector.GetDeep | vector.c:168-179 | a copy of element `index` exactly when v is non-NULL, index < size and allocation succeeds; NULL otherwise |
| Vector.Upsize | vector.c:237-255 | NULL for NULL; the original when the vector is fixed-length, NO_TYPE (the copy-in `replace` refuses) or allocation fails; otherwise a fresh vector of twice the size whose first half holds the old elements in order |
| Vector.Downsize | vector.c:264-282 | NULL for NULL; the original when the vector is fixed-length, has size 1, is NO_TYPE, or allocation fails; otherwise a fresh vector of size/2 holding the first size/2 elements in order |
| Vector.UpsizeThenDownsize | vector.c:237-282 | upsizing and then downsizing a dynamic typed vector restores its size and every element in order |
| Vector.Append | vector.c:64-103 | the original when data is NULL, the vector is fixed-length or NO_TYPE, or allocation fails; otherwise a fresh vector of size+1 (exact grow) or 2*size (double grow) that keeps the old elements in order and holds the copied data at the old end |
| ArrayList.InitArl | array_list.c:15-29 | NULL exactly when the capacity or data_size is 0 or allocation fails; otherwise a fresh valid list with size 0, the given capacity and every slot NULL |
| ArrayList.Append | array_list.c:32-54 | the list is unchanged when data is NULL or allocation fails; otherwise the copied data is the new last element and the earlier ones stay in order; the list is the same object when it had room, and a fresh one of twice the capacity when it was full |
| ArrayList.Upsize | array_list.c:123-139 | the original when allocation fails; otherwise a fresh valid list of twice the capacity with the same size and elements in order |
| ArrayList.Downsize | array_list.c:142-157 | the original when capacity/2 is 0 or allocation fails; otherwise a fresh valid list of half the capacity holding the first min(size, capacity/2) elements in order |
| ArrayList.UpsizeThenDownsize | array_list.c:123-157 | upsizing and then downsizing restores the capacity, the size and every element in order |
| ArrayList.Replace | array_list.c:57-67 | always returns the same list; index < size overwrites only that element; index == size+1 (within capacity) appends at position size; NULL data, index > capacity or index > size+1 change nothing |
| ArrayList.Arl.RemoveAt | array_list.c:76-84 | on a valid list and an index below size: the element is removed, later ones shift down in order, size drops by 1, and the slot invariant (elements below size, NULL from size on) still holds |
| ArrayList.Delete | array_list.c:70-89 | a negative index, an index beyond the capacity or a NULL slot changes nothing; otherwise the element is removed, later ones shift down in order, size drops by 1 and the invariant holds; the list is then downsized to half its capacity when size <= capacity/2 |
| ArrayList.Contains | array_list.c:94-103 | true exactly when the comparator and data are non-NULL and the comparator gives 0 against some element below `size` |
| ArrayList.GetDeep | array_list.c:106-112 | a copy of element `index` exactly when the list is non-NULL, index < size and allocation succeeds; NULL otherwise |
| ArrayList.GetShallow | array_list.c:116-120 | element `index` when index < size; NULL for a NULL list, for index > size, and for the NULL slot at index == size |

## Left out

- `free_vec` and `free_arl` are not modelled. Nothing is freed in a garbage-collected model, so the leaks go too: `new_v` after a failed copy-in (vector.c:249, 276), `data_cpy` on a failed upsize (array_list.c:46) and `ar` on a failed slot allocation (array_list.c:23).
- Allocation is one boolean, `allocOk`, per call. A copy that fails inside the array list's `upsize` or `downsize` loop makes `append` return the new list unchanged, so the loop silently drops that element. The model does not capture this.
- The model works at element level, not on pointer arithmetic:
  - `v->array` is a `void**`, so `v->array + i * data_size` strides by `sizeof(void*)`.
  - `upsize` and `downsize` read the source at `i * size` rather than `i * data_size`.
  - The model copies element i to element i, which is what the comment "Copy all the data" describes.
- Slots hold values, not pointers. A copy returned by `get_deep` therefore never aliases the container. The aliasing that `get_shallow` exposes is not modelled either: an edit through the handle is not visible in the container, and the handle is not invalidated by a resize.
- The array list's comparator receives the element here. The source passes the slot address `ar->array + i` (array_list.c:100).
- Integers are unbounded:
  - `size * 2` and `capacity * 2` do not wrap at 32 bits;
  - sizes and capacities are `nat`, so a negative `init_size` or `init_capacity` is not modelled;
  - indices of vector.c and of the array list's get functions are `nat`, because a negative index there is undefined behaviour.
- Other undefined behaviour is excluded by preconditions:
  - `get_deep` at `index == size`;
  - the array list's `get_shallow` at `index == size == capacity`;
  - the array list's `replace` at `index == size` or at a negative index;
  - `delete` at `index == capacity`;
  - the array list's `contains` on a NULL list with a non-NULL comparator and data, because array_list.c:99 reads `ar->size` without a NULL check;
  - a double-grow `append` when the upsize fails. That append would write past the end.
- ArrayList.GetShallow: it returns the element's value, not the slot's pointer, so it does not capture the promise of array_list.c:114-115 that edits through the returned handle show in the list.
- `contains` in the array list returns `char` 0 or 1; here it returns `bool`.
- Header/source mismatches follow the .c files:
  - `replace` returns `bool` (vector.h:83 declares `vec*`);
  - vector.h:116 declares a `get_shallow` for vectors that vector.c never defines, so it is not part of this model;
  - the capacity field described in vector.h:25-27 does not exist in the struct.
- test_vector.c holds test prototypes and an empty `main`. There is nothing in it to model.
- Vector.Vec.constructor: it promises only the width of each slot, not its contents, because `malloc` leaves memory uninitialised (vector.c:43). The body happens to fill zeros.

## Findings

| source | as written | input that shows it | evidently intended | confidence | as-written member | corrected member |
|---|---|---|---|---|---|---|
| vector.c:154 | with no comparator, `contains` compares an element to `data` with `strncmp` over `data_size` bytes. That comparison stops at the first NUL byte the two share | an INT32 vector holding 256 (bytes 00 01 00 00), searched for 0 (bytes 00 00 00 00) with no comparator, reports true | the element's `data_size` bytes compared in full, as for numbers (`memcmp`) | high (not executed) | Vector.Contains, Vector.NulStopsComparison | Vector.ContainsExact, Vector.ExactMatchIsStrnMatch |
