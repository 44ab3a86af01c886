/** The type-tagged vector of vector.c: a `vec` whose `size` is both its length
    and its capacity, whose element width follows from its type tag, and whose
    size-changing operations build a new `vec` and hand it back in place of the
    old one. Elements are modelled one slot at a time, each slot holding the
    bytes of one element. */
module Vector {
  import opened Common

  /** The element kinds of the `type` enum (values 0 to 5 in this order). A C
      enum variable can hold any other integer too; `Unlisted` stands for
      such a value. */
  datatype TypeTag = NoType | Char | Int32 | Int64 | Float32 | Double | Unlisted(code: int)

  /** Each integer has one tag: `Unlisted` never carries a listed value. */
  predicate ValidTag(t: TypeTag)
  {
    t.Unlisted? ==> t.code < 0 || 5 < t.code
  }

  /** `get_data_size`: the byte width of one element, as `sizeof` gives it on
      a GCC target, where `sizeof(void)` is 1; the `default` arm gives 0. */
  function DataSize(t: TypeTag): (w: nat)
    ensures w == 0 <==> t.Unlisted?
    ensures w <= 8
    ensures t.NoType? || t.Char? <==> w == 1
  {
    match t
    case NoType => 1
    case Char => 1
    case Int32 => 4
    case Int64 => 8
    case Float32 => 4
    case Double => 8
    case Unlisted(_) => 0
  }

  /** The elements laid end to end, as the one `malloc`'d block holds them. */
  function Flatten(s: seq<Bytes>): Bytes
  {
    if s == [] then [] else s[0] + Flatten(s[1..])
  }

  lemma {:induction false} FlattenLength(s: seq<Bytes>, w: nat)
    requires forall i :: 0 <= i < |s| ==> |s[i]| == w
    ensures |Flatten(s)| == w * |s|
  {
    if s != [] {
      FlattenLength(s[1..], w);
      calc {
        |Flatten(s)|;
        |s[0]| + |Flatten(s[1..])|;
        w + w * (|s| - 1);
        w * |s|;
      }
    }
  }

  function Zeros(w: nat): (z: Bytes)
    ensures |z| == w
  {
    seq(w, _ => 0)
  }

  /** `vec`. None of its fields is reassigned after `init_vec`; only the
      contents of the slots change, through `replace`. */
  class Vec {
    const size: nat
    const dataType: TypeTag
    const fixedLength: bool
    const slots: array<Bytes>

    /** `size` slots, never zero, each holding one element's bytes. */
    ghost predicate Valid()
      reads slots
    {
      1 <= size && slots.Length == size && ValidTag(dataType) &&
      forall i :: 0 <= i < size ==> |slots[i]| == DataSize(dataType)
    }

    ghost function Elements(): (s: seq<Bytes>)
      reads slots
      requires Valid()
      ensures |s| == size
    {
      slots[..]
    }

    /** The slots' contents are left unconstrained: `malloc` does not clear
        memory, so the contract promises only the width of each slot. */
    constructor (n: nat, t: TypeTag, fixed: bool)
      requires 1 <= n && ValidTag(t)
      ensures Valid() && fresh(slots)
      ensures size == n && dataType == t && fixedLength == fixed
    {
      size, dataType, fixedLength := n, t, fixed;
      slots := new Bytes[n](_ => Zeros(DataSize(t)));
    }
  }

  /** `init_vec`. */
  method InitVec(initSize: nat, t: TypeTag, fixed: bool, allocOk: bool) returns (v: Vec?)
    requires ValidTag(t)
    ensures v == null <==> initSize == 0 || !allocOk
    ensures v != null ==> fresh(v) && fresh(v.slots) && v.Valid()
    ensures v != null ==> v.size == initSize && v.dataType == t && v.fixedLength == fixed
  {
    if initSize == 0 {
      return null;
    }
    if !allocOk {
      return null;
    }
    v := new Vec(initSize, t, fixed);
  }

  /** `byte_size`: the number of bytes the live elements occupy. */
  function ByteSize(v: Vec?): (n: nat)
    reads if v == null then {} else {v.slots}
    requires v != null ==> v.Valid()
    ensures v == null ==> n == 0
    ensures v != null ==> n == |Flatten(v.Elements())|
  {
    if v == null then 0
    else
      FlattenLength(v.Elements(), DataSize(v.dataType));
      DataSize(v.dataType) * v.size
  }

  /** `replace`: overwrite one slot in place with the first `DataSize` bytes of
      `data`. */
  method Replace(data: Option<Bytes>, index: nat, v: Vec?) returns (ok: bool)
    requires v != null ==> v.Valid()
    // `data` is read only once the guards have passed
    requires v != null && data.Some? && index < v.size && v.dataType != NoType ==>
               DataSize(v.dataType) <= |data.value|
    modifies if v == null then {} else {v.slots}
    ensures ok <==> data.Some? && v != null && index < v.size && v.dataType != NoType
    ensures v != null ==> v.Valid()
    ensures ok ==> v != null && v.Elements() == old(v.Elements())[index := data.value[..DataSize(v.dataType)]]
    ensures !ok && v != null ==> v.Elements() == old(v.Elements())
  {
    if data.None? || v == null {
      return false;
    }
    if index >= v.size || v.dataType == NoType {
      return false;
    }
    v.slots[index] := data.value[..DataSize(v.dataType)];
    ok := true;
  }

  /** `strncmp(a, b, n) == 0`: at most `n` bytes are compared, and the
      comparison stops after the first NUL byte the two have in common. */
  function StrnEq(a: Bytes, b: Bytes, n: nat): bool
    requires n <= |a| && n <= |b|
    decreases n
  {
    if n == 0 then true
    else if a[0] != b[0] then false
    else if a[0] == 0 then true
    else StrnEq(a[1..], b[1..], n - 1)
  }

  /** `a` and `b` agree up to and including a NUL byte within the first `n`. */
  ghost predicate AgreeThroughNul(a: Bytes, b: Bytes, n: nat)
    requires n <= |a| && n <= |b|
  {
    exists k :: 0 <= k < n && a[k] == 0 && a[..k + 1] == b[..k + 1]
  }

  /** Past a shared non-NUL first byte, agreeing through a NUL is a matter of
      the remaining bytes. */
  lemma AgreeThroughNulTail(a: Bytes, b: Bytes, n: nat)
    requires 1 <= n <= |a| && n <= |b| && a[0] == b[0] != 0
    ensures AgreeThroughNul(a, b, n) <==> AgreeThroughNul(a[1..], b[1..], n - 1)
  {
    var a', b' := a[1..], b[1..];
    if AgreeThroughNul(a, b, n) {
      var k :| 0 <= k < n && a[k] == 0 && a[..k + 1] == b[..k + 1];
      assert a[..k + 1] == [a[0]] + a'[..k];
      assert b[..k + 1] == [b[0]] + b'[..k];
      assert a'[k - 1] == 0 && a'[..k] == b'[..k];
    }
    if AgreeThroughNul(a', b', n - 1) {
      var k :| 0 <= k < n - 1 && a'[k] == 0 && a'[..k + 1] == b'[..k + 1];
      assert a[..k + 2] == [a[0]] + a'[..k + 1];
      assert b[..k + 2] == [b[0]] + b'[..k + 1];
      assert a[k + 1] == 0 && a[..k + 2] == b[..k + 2];
    }
  }

  /** `strncmp` equality is equality up to and including the first NUL byte
      within the first `n` bytes (or of all `n` bytes when there is none). */
  lemma {:induction false} StrnEqThroughNul(a: Bytes, b: Bytes, n: nat)
    requires n <= |a| && n <= |b|
    ensures StrnEq(a, b, n) <==> a[..n] == b[..n] || AgreeThroughNul(a, b, n)
    decreases n
  {
    if n == 0 {
    } else if a[0] != b[0] {
      assert a[..n][0] != b[..n][0];
      forall k | 0 <= k < n
        ensures a[k] == 0 ==> a[..k + 1] != b[..k + 1]
      {
        assert a[..k + 1][0] != b[..k + 1][0];
      }
    } else if a[0] == 0 {
      assert a[..1] == b[..1];
    } else {
      StrnEqThroughNul(a[1..], b[1..], n - 1);
      AgreeThroughNulTail(a, b, n);
      assert a[..n] == [a[0]] + a[1..][..n - 1];
      assert b[..n] == [b[0]] + b[1..][..n - 1];
      if a[..n] == b[..n] {
        assert a[1..][..n - 1] == a[..n][1..] == b[..n][1..] == b[1..][..n - 1];
      }
      assert StrnEq(a, b, n) == StrnEq(a[1..], b[1..], n - 1);
    }
  }

  /** A caller-supplied `char (*comparator)(const void*, const void*)`:
      0 means equal. */
  type Comparator = (Bytes, Bytes) -> int

  /** Whether `contains` takes the element `elem` for a match of `data`:
      the comparator when there is one, else `strncmp` over `w` bytes. */
  predicate Matches(cmp: Option<Comparator>, data: Bytes, elem: Bytes, w: nat)
    requires cmp.None? ==> w <= |data| && w <= |elem|
  {
    match cmp
    case Some(f) => f(data, elem) == 0
    case None => StrnEq(elem, data, w)
  }

  /** `contains`: a linear scan of the `size` slots. */
  method Contains(data: Option<Bytes>, v: Vec?, cmp: Option<Comparator>) returns (found: bool)
    requires v != null ==> v.Valid()
    requires v != null && cmp.None? && v.dataType != NoType ==> Fits(data, DataSize(v.dataType))
    ensures found <==>
              data.Some? && v != null && (v.dataType != NoType || cmp.Some?) &&
              exists i :: 0 <= i < v.size && Matches(cmp, data.value, v.slots[i], DataSize(v.dataType))
  {
    if data.None? || v == null {
      return false;
    }
    if v.dataType == NoType && cmp.None? {
      return false;
    }
    var w := DataSize(v.dataType);
    var i := 0;
    while i < v.size
      invariant 0 <= i <= v.size
      invariant forall j :: 0 <= j < i ==> !Matches(cmp, data.value, v.slots[j], w)
    {
      var hit := match cmp
        case Some(f) => f(data.value, v.slots[i]) == 0
        case None => StrnEq(v.slots[i], data.value, w);
      if hit {
        return true;
      }
      i := i + 1;
    }
    found := false;
  }

  /** With `strncmp` as the default equality, a 4-byte element holding 256
      (little-endian 00 01 00 00) is taken for a match of 0 (00 00 00 00):
      both start with a NUL byte, where `strncmp` stops. */
  lemma NulStopsComparison()
    ensures var zero: Bytes, twoFiftySix: Bytes := [0, 0, 0, 0], [0, 1, 0, 0];
            zero != twoFiftySix && Matches(None, zero, twoFiftySix, DataSize(Int32))
  {
  }

  /** Byte-for-byte equality of the first `w` bytes, as `memcmp` decides it. */
  predicate MatchesExact(cmp: Option<Comparator>, data: Bytes, elem: Bytes, w: nat)
    requires cmp.None? ==> w <= |data| && w <= |elem|
  {
    match cmp
    case Some(f) => f(data, elem) == 0
    case None => elem[..w] == data[..w]
  }

  /** Whatever exact byte equality accepts, `strncmp` accepts too; the
      converse fails (NulStopsComparison). */
  lemma ExactMatchIsStrnMatch(cmp: Option<Comparator>, data: Bytes, elem: Bytes, w: nat)
    requires cmp.None? ==> w <= |data| && w <= |elem|
    requires MatchesExact(cmp, data, elem, w)
    ensures Matches(cmp, data, elem, w)
  {
    if cmp.None? {
      StrnEqThroughNul(elem, data, w);
    }
  }

  /** `contains` with the default equality its own comment asks for ("do
      default comp for a given data_type", vector.c:150-151): every byte of
      the element compared, NUL bytes included. */
  method ContainsExact(data: Option<Bytes>, v: Vec?, cmp: Option<Comparator>) returns (found: bool)
    requires v != null ==> v.Valid()
    requires v != null && cmp.None? && v.dataType != NoType ==> Fits(data, DataSize(v.dataType))
    ensures found <==>
              data.Some? && v != null && (v.dataType != NoType || cmp.Some?) &&
              exists i :: 0 <= i < v.size && MatchesExact(cmp, data.value, v.slots[i], DataSize(v.dataType))
  {
    if data.None? || v == null {
      return false;
    }
    if v.dataType == NoType && cmp.None? {
      return false;
    }
    var w := DataSize(v.dataType);
    var i := 0;
    while i < v.size
      invariant 0 <= i <= v.size
      invariant forall j :: 0 <= j < i ==> !MatchesExact(cmp, data.value, v.slots[j], w)
    {
      var hit := match cmp
        case Some(f) => f(data.value, v.slots[i]) == 0
        case None => v.slots[i] == data.value[..w];
      if hit {
        return true;
      }
      i := i + 1;
    }
    found := false;
  }

  /** `get_deep`: a copy of one element. Slots are values here, so the copy
      shares nothing with the vector. */
  method GetDeep(index: nat, v: Vec?, allocOk: bool) returns (r: Option<Bytes>)
    requires v != null ==> v.Valid() && index != v.size
    ensures r.Some? <==> v != null && index < v.size && allocOk
    ensures r.Some? ==> v != null && index < v.size && r.value == v.Elements()[index]
  {
    if v == null {
      return None;
    }
    if index > v.size {
      return None;
    }
    if !allocOk {
      return None;
    }
    r := Some(v.slots[index]);
  }

  /** `upsize`: a new vector of twice the size whose first half holds the old
      elements; the original when the vector is fixed-length, when
      allocation fails, or when the copy-in `replace` refuses (NO_TYPE). */
  method Upsize(v: Vec?, allocOk: bool) returns (r: Vec?)
    requires v != null ==> v.Valid()
    ensures v == null <==> r == null
    ensures r != null ==> r.Valid()
    ensures v != null && (v.fixedLength || v.dataType == NoType || !allocOk) ==> r == v
    ensures v != null && !v.fixedLength && v.dataType != NoType && allocOk ==>
              fresh(r) && fresh(r.slots) && r.size == 2 * v.size &&
              r.dataType == v.dataType && r.fixedLength == v.fixedLength &&
              r.Elements()[..v.size] == v.Elements()
  {
    if v == null {
      return null;
    }
    if v.fixedLength {
      return v;
    }
    var nv := InitVec(v.size * 2, v.dataType, v.fixedLength, allocOk);
    if nv == null {
      return v;
    }
    var n := v.size;
    var i := 0;
    while i < n
      invariant 0 <= i <= n
      invariant fresh(nv) && fresh(nv.slots) && nv.Valid()
      invariant nv.size == 2 * n && nv.dataType == v.dataType && nv.fixedLength == v.fixedLength
      invariant nv.slots[..i] == v.slots[..i]
      invariant i > 0 ==> v.dataType != NoType
    {
      assert v.slots[i][..DataSize(v.dataType)] == v.slots[i];
      var ok := Replace(Some(v.slots[i]), i, nv);
      if !ok {
        return v;
      }
      assert nv.slots[..i + 1] == nv.slots[..i] + [v.slots[i]];
      i := i + 1;
    }
    assert nv.Elements()[..n] == nv.slots[..n];
    return nv;
  }

  /** `downsize`: a new vector of half the size holding the first half of the
      elements; the original when the vector is fixed-length, when half the
      size is 0 (`init_vec` refuses it), when allocation fails, or when the
      copy-in `replace` refuses (NO_TYPE). */
  method Downsize(v: Vec?, allocOk: bool) returns (r: Vec?)
    requires v != null ==> v.Valid()
    ensures v == null <==> r == null
    ensures r != null ==> r.Valid()
    ensures v != null && (v.fixedLength || v.size == 1 || v.dataType == NoType || !allocOk) ==> r == v
    ensures v != null && !v.fixedLength && v.size != 1 && v.dataType != NoType && allocOk ==>
              fresh(r) && fresh(r.slots) && r.size == v.size / 2 &&
              r.dataType == v.dataType && r.fixedLength == v.fixedLength &&
              r.Elements() == v.Elements()[..v.size / 2]
  {
    if v == null {
      return null;
    }
    if v.fixedLength {
      return v;
    }
    var nv := InitVec(v.size / 2, v.dataType, v.fixedLength, allocOk);
    if nv == null {
      return v;
    }
    var n := nv.size;
    var i := 0;
    while i < n
      invariant 0 <= i <= n
      invariant fresh(nv) && fresh(nv.slots) && nv.Valid()
      invariant n == v.size / 2 && nv.dataType == v.dataType && nv.fixedLength == v.fixedLength
      invariant nv.slots[..i] == v.slots[..i]
      invariant i > 0 ==> v.dataType != NoType
    {
      assert v.slots[i][..DataSize(v.dataType)] == v.slots[i];
      var ok := Replace(Some(v.slots[i]), i, nv);
      if !ok {
        return v;
      }
      assert nv.slots[..i + 1] == nv.slots[..i] + [v.slots[i]];
      i := i + 1;
    }
    assert nv.slots[..] == nv.slots[..n];
    return nv;
  }

  /** Growing and then shrinking a dynamic vector gives back a vector of the
      original size with the original elements in order. */
  method UpsizeThenDownsize(v: Vec) returns (r: Vec?)
    requires v.Valid() && !v.fixedLength && v.dataType != NoType
    ensures r != null && r.Valid()
    ensures r.size == v.size && r.dataType == v.dataType && r.Elements() == v.Elements()
  {
    var up := Upsize(v, true);
    r := Downsize(up, true);
  }

  /** `append`: a vector one element longer (exact grow) or twice as long
      (double grow, through `upsize`) with the copied element at the old end;
      the original when `data` is NULL, the vector is fixed-length or NO_TYPE,
      or allocation fails. */
  method Append(data: Option<Bytes>, v: Vec?, doubleSize: bool, allocOk: bool) returns (r: Vec?)
    requires v != null ==> v.Valid()
    // `data` is read only once the guards have passed and the new vector exists
    requires v != null && data.Some? && !v.fixedLength && v.dataType != NoType && allocOk ==>
               DataSize(v.dataType) <= |data.value|
    // after a failed upsize the source writes one slot past the end
    requires v != null && data.Some? && !v.fixedLength && v.dataType != NoType && doubleSize ==> allocOk
    ensures v == null <==> r == null
    ensures r != null ==> r.Valid()
    ensures v != null && (data.None? || v.fixedLength || v.dataType == NoType || !allocOk) ==> r == v
    ensures v != null && data.Some? && !v.fixedLength && v.dataType != NoType && allocOk ==>
              fresh(r) && fresh(r.slots) && r.dataType == v.dataType && r.fixedLength == v.fixedLength &&
              r.size == (if doubleSize then 2 * v.size else v.size + 1) &&
              r.Elements()[..v.size] == v.Elements() &&
              r.Elements()[v.size] == data.value[..DataSize(v.dataType)]
  {
    if data.None? || v == null {
      return v;
    }
    if v.fixedLength || v.dataType == NoType {
      return v;
    }
    var ogSize := v.size;
    var w := DataSize(v.dataType);
    if doubleSize {
      r := Upsize(v, allocOk);
      ghost var copied := r.slots[..ogSize];
      r.slots[ogSize] := data.value[..w];
      assert r.slots[..ogSize] == copied;
    } else {
      var nv := InitVec(ogSize + 1, v.dataType, v.fixedLength, allocOk);
      if nv == null {
        return v;
      }
      var i := 0;
      while i < ogSize
        invariant 0 <= i <= ogSize
        invariant nv.Valid() && nv.size == ogSize + 1
        invariant nv.slots[..i] == v.slots[..i]
      {
        nv.slots[i] := v.slots[i];
        i := i + 1;
      }
      nv.slots[ogSize] := data.value[..w];
      assert nv.Elements()[..ogSize] == v.slots[..ogSize];
      r := nv;
    }
  }

  /** An INT32 vector of four elements (little-endian bytes): fill it with
      5, -3, 5, 100, look two values up, then double-grow it by 42. Slots 5
      to 7 of the grown vector are whatever `malloc` returned. */
  method Int32Walkthrough()
  {
    var five: Bytes, minusThree: Bytes, hundred: Bytes := [5, 0, 0, 0], [0xFD, 0xFF, 0xFF, 0xFF], [100, 0, 0, 0];
    assert five[..4] == five && minusThree[..4] == minusThree && hundred[..4] == hundred;
    var v := InitVec(4, Int32, false, true);
    var ok := Replace(Some(five), 0, v);
    ok := Replace(Some(minusThree), 1, v);
    ok := Replace(Some(five), 2, v);
    ok := Replace(Some(hundred), 3, v);
    assert v.Elements() == [five, minusThree, five, hundred];
    var has := Contains(Some(five), v, None);
    assert v.slots[0] == five;
    assert has;
    has := Contains(Some([7, 0, 0, 0]), v, None);
    assert !has;
    var fortyTwo: Bytes := [42, 0, 0, 0];
    assert fortyTwo[..4] == fortyTwo;
    v := Append(Some(fortyTwo), v, true, true);
    assert v.size == 8;
    var got := GetDeep(4, v, true);
    assert got == Some(fortyTwo);
    ok := Replace(Some(hundred), 7, v);
    assert ok && v.Elements()[7] == hundred && v.Elements()[4] == fortyTwo;
  }

  /** A fixed-length vector refuses to grow or shrink. */
  method FixedLengthWalkthrough()
  {
    var v := InitVec(3, Double, true, true);
    var w := Append(Some(Zeros(8)), v, false, true);
    assert w == v && w.size == 3;
    w := Downsize(v, true);
    assert w == v;
  }
}
