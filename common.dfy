/** Vocabulary shared by the two containers: raw memory as byte sequences and
    C pointers that may be NULL. */
module Common {

  /** One byte of C memory. */
  type Byte = bv8

  /** A block of bytes, as `memcpy` copies it. */
  type Bytes = seq<Byte>

  /** A pointer that may be NULL, modelled by what it points at. */
  datatype Option<T> = None | Some(value: T)

  /** `data` is NULL or points at (at least) `w` readable bytes, so that a
      `memcpy` of `w` bytes out of it is defined. */
  predicate Fits(data: Option<Bytes>, w: nat)
  {
    data.Some? ==> w <= |data.value|
  }

  function Min(a: int, b: int): int
  {
    if a <= b then a else b
  }
}
