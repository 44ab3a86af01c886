/** The pointer-slot array list of array_list.c: an `arl` with a `capacity`
    of slots, the first `size` of which hold deep copies of the appended data
    and the rest of which are NULL. Appending into a full list and deleting
    down to half the capacity replace the list by a new one of twice or half
    the capacity. */
module ArrayList {
  import opened Common

  /** The elements held by a run of non-NULL slots. */
  function Values(s: seq<Option<Bytes>>): (r: seq<Bytes>)
    requires forall i :: 0 <= i < |s| ==> s[i].Some?
    ensures |r| == |s| && forall i :: 0 <= i < |s| ==> r[i] == s[i].value
  {
    seq(|s|, i requires 0 <= i < |s| => s[i].value)
  }

  /** `arl`. The slot array, the capacity and the element width are fixed
      when `init_arl` builds the list; `append` and `delete` change `size`
      and the slots in place. */
  class Arl {
    const slots: array<Option<Bytes>>
    const capacity: nat
    const dataSize: nat
    var size: nat

    /** `size <= capacity`; the slots below `size` hold elements of
        `dataSize` bytes, those from `size` on are NULL. */
    ghost predicate Valid()
      reads this, slots
    {
      1 <= capacity && 1 <= dataSize && slots.Length == capacity && size <= capacity &&
      (forall i :: 0 <= i < size ==> slots[i].Some? && |slots[i].value| == dataSize) &&
      (forall i :: size <= i < capacity ==> slots[i].None?)
    }

    ghost function Elements(): (s: seq<Bytes>)
      reads this, slots
      requires Valid()
      ensures |s| == size
      ensures forall i :: 0 <= i < size ==> |s[i]| == dataSize
    {
      Values(slots[..size])
    }

    constructor (cap: nat, ds: nat)
      requires 1 <= cap && 1 <= ds
      ensures Valid() && fresh(slots)
      ensures capacity == cap && dataSize == ds && size == 0
      ensures forall i :: 0 <= i < cap ==> slots[i].None?
    {
      slots := new Option<Bytes>[cap];
      capacity, dataSize := cap, ds;
      new;
      var i := 0;
      while i < cap
        invariant 0 <= i <= cap
        invariant forall j :: 0 <= j < i ==> slots[j].None?
      {
        slots[i] := None;
        i := i + 1;
      }
      size := 0;
    }

    /** The in-place part of `delete`: free element `index`, shift the later
        elements down one slot and NULL the old last slot. */
    method RemoveAt(index: nat)
      requires Valid() && index < size
      modifies this, slots
      ensures Valid() && size == old(size) - 1
      ensures Elements() == old(Elements())[..index] + old(Elements())[index + 1..]
    {
      ghost var elems := Elements();
      var i := index;
      while i < size - 1
        invariant size == old(size) && index <= i <= size - 1
        invariant forall j :: 0 <= j < index ==> slots[j] == old(slots[j])
        invariant forall j :: index <= j < i ==> slots[j] == old(slots[j + 1])
        invariant forall j :: i <= j < capacity ==> slots[j] == old(slots[j])
      {
        slots[i] := slots[i + 1];
        i := i + 1;
      }
      size := size - 1;
      slots[size] := None;
      assert Elements() == elems[..index] + elems[index + 1..];
    }
  }

  /** `init_arl`. */
  method InitArl(initCapacity: nat, dataSize: nat, allocOk: bool) returns (ar: Arl?)
    ensures ar == null <==> initCapacity == 0 || dataSize == 0 || !allocOk
    ensures ar != null ==> fresh(ar) && fresh(ar.slots) && ar.Valid()
    ensures ar != null ==> ar.capacity == initCapacity && ar.dataSize == dataSize && ar.size == 0
    ensures ar != null ==> forall i :: 0 <= i < initCapacity ==> ar.slots[i].None?
  {
    if initCapacity == 0 {
      return null;
    }
    if dataSize == 0 {
      return null;
    }
    if !allocOk {
      return null;
    }
    ar := new Arl(initCapacity, dataSize);
  }

  /** `append`: a deep copy of `data` goes into slot `size`, after doubling
      the capacity through `upsize` when the list is full. The list is
      returned unchanged when `data` is NULL or allocation fails. */
  method Append(data: Option<Bytes>, ar: Arl?, allocOk: bool) returns (r: Arl?)
    requires ar != null ==> ar.Valid()
    // `data` is read only once the copy has been allocated
    requires ar != null && data.Some? && allocOk ==> ar.dataSize <= |data.value|
    modifies if ar == null then {} else {ar, ar.slots}
    decreases if ar != null && ar.size == ar.capacity then 2 else 0
    ensures ar == null <==> r == null
    ensures r != null ==> r.Valid() && r.dataSize == ar.dataSize
    ensures ar != null && (data.None? || !allocOk) ==>
              r == ar && ar.size == old(ar.size) && ar.Elements() == old(ar.Elements())
    ensures ar != null && data.Some? && allocOk ==>
              r.Elements() == old(ar.Elements()) + [data.value[..ar.dataSize]]
    ensures ar != null && data.Some? && allocOk && old(ar.size) < ar.capacity ==> r == ar
    ensures ar != null && data.Some? && allocOk && old(ar.size) == ar.capacity ==>
              fresh(r) && fresh(r.slots) && r.capacity == 2 * ar.capacity && ar.size == old(ar.size)
  {
    if data.None? || ar == null {
      return ar;
    }
    if !allocOk {
      return ar;
    }
    var copy := data.value[..ar.dataSize];
    r := ar;
    if r.size == r.capacity {
      r := Upsize(r, allocOk);
    }
    ghost var before := r.slots[..r.size];
    r.slots[r.size] := Some(copy);
    r.size := r.size + 1;
    assert r.slots[..r.size] == before + [Some(copy)];
  }

  /** `upsize`: a new list of twice the capacity, filled by appending every
      element in order; the original when allocation fails. */
  method Upsize(ar: Arl?, allocOk: bool) returns (r: Arl?)
    requires ar != null ==> ar.Valid()
    decreases 1
    ensures ar == null <==> r == null
    ensures r != null ==> r.Valid() && r.dataSize == ar.dataSize
    ensures r != null ==> r.size == ar.size && r.Elements() == ar.Elements()
    ensures ar != null && !allocOk ==> r == ar
    ensures ar != null && allocOk ==> fresh(r) && fresh(r.slots) && r.capacity == 2 * ar.capacity
  {
    if ar == null {
      return null;
    }
    var nr := InitArl(ar.capacity * 2, ar.dataSize, allocOk);
    if nr == null {
      return ar;
    }
    var i := 0;
    while i < ar.size
      invariant 0 <= i <= ar.size
      invariant fresh(nr) && fresh(nr.slots) && nr.Valid()
      invariant nr.capacity == 2 * ar.capacity && nr.dataSize == ar.dataSize
      invariant nr.size == i && nr.Elements() == ar.Elements()[..i]
    {
      nr := Append(ar.slots[i], nr, true);
      assert ar.slots[i].value[..ar.dataSize] == ar.Elements()[i];
      assert ar.Elements()[..i + 1] == ar.Elements()[..i] + [ar.Elements()[i]];
      i := i + 1;
    }
    return nr;
  }

  /** `downsize`: a new list of half the capacity, filled by appending the
      first `capacity / 2` slots; NULL slots append nothing, so it holds the
      first `min(size, capacity / 2)` elements. The original when half the
      capacity is 0 (`init_arl` refuses it) or allocation fails. */
  method Downsize(ar: Arl?, allocOk: bool) returns (r: Arl?)
    requires ar != null ==> ar.Valid()
    decreases 1
    ensures ar == null <==> r == null
    ensures r != null ==> r.Valid() && r.dataSize == ar.dataSize
    ensures ar != null && (ar.capacity / 2 == 0 || !allocOk) ==> r == ar
    ensures ar != null && ar.capacity / 2 != 0 && allocOk ==>
              fresh(r) && fresh(r.slots) && r.capacity == ar.capacity / 2 &&
              r.Elements() == ar.Elements()[..Min(ar.size, ar.capacity / 2)]
  {
    if ar == null {
      return null;
    }
    var nr := InitArl(ar.capacity / 2, ar.dataSize, allocOk);
    if nr == null {
      return ar;
    }
    ghost var elems := ar.Elements();
    var i := 0;
    while i < nr.capacity
      invariant nr != null && 0 <= i <= nr.capacity == ar.capacity / 2
      invariant fresh(nr) && fresh(nr.slots) && nr.Valid() && nr.dataSize == ar.dataSize
      invariant nr.size == Min(i, ar.size) && nr.Elements() == elems[..Min(i, ar.size)]
    {
      nr := Append(ar.slots[i], nr, true);
      if i < ar.size {
        assert ar.slots[i].value[..ar.dataSize] == elems[i];
        assert elems[..i + 1] == elems[..i] + [elems[i]];
      }
      i := i + 1;
    }
    return nr;
  }

  /** Doubling and then halving the capacity gives back the original capacity
      with every element in order. */
  method UpsizeThenDownsize(ar: Arl) returns (r: Arl?)
    requires ar.Valid()
    ensures r != null && r.Valid()
    ensures r.capacity == ar.capacity && r.size == ar.size && r.Elements() == ar.Elements()
  {
    var up := Upsize(ar, true);
    r := Downsize(up, true);
  }

  /** `replace`: overwrite element `index` in place; `index == size + 1`
      appends instead (at position `size`). The list is unchanged when `data`
      is NULL, `index > capacity` or `index > size + 1`. */
  method Replace(data: Option<Bytes>, index: int, ar: Arl?, allocOk: bool) returns (r: Arl?)
    requires ar != null ==> ar.Valid()
    // `data` is read only once the guards have passed (and, to append, the copy is allocated)
    requires ar != null && data.Some? && index <= ar.capacity && index <= ar.size + 1 && (index <= ar.size || allocOk) ==>
               ar.dataSize <= |data.value|
    // a negative index, or index == size, would copy into a slot that is not an element
    requires ar != null && data.Some? && index <= ar.capacity && index < ar.size + 1 ==> 0 <= index < ar.size
    modifies if ar == null then {} else {ar, ar.slots}
    ensures r == ar
    ensures ar != null ==> ar.Valid()
    ensures ar != null && data.Some? && 0 <= index < old(ar.size) ==>
              ar.size == old(ar.size) &&
              ar.Elements() == old(ar.Elements())[index := data.value[..ar.dataSize]]
    ensures ar != null && data.Some? && index == old(ar.size) + 1 <= ar.capacity && allocOk ==>
              ar.Elements() == old(ar.Elements()) + [data.value[..ar.dataSize]]
    ensures ar != null && (data.None? || index > ar.capacity || index > old(ar.size) + 1 ||
                           (index == old(ar.size) + 1 && !allocOk)) ==>
              ar.size == old(ar.size) && ar.Elements() == old(ar.Elements())
  {
    if data.None? || ar == null {
      return ar;
    }
    if index > ar.capacity {
      return ar;
    }
    if index > ar.size + 1 {
      return ar;
    }
    if index == ar.size + 1 {
      r := Append(data, ar, allocOk);
      return;
    }
    ar.slots[index] := Some(data.value[..ar.dataSize]);
    r := ar;
  }

  /** `delete`: free element `index`, shift the later ones down one slot and
      NULL the old last slot; then hand the list to `downsize` when `size` has
      fallen to half the capacity or below. The list is unchanged when `index`
      is negative or beyond the capacity, or its slot is NULL. */
  method Delete(index: int, ar: Arl?, allocOk: bool) returns (r: Arl?)
    // slot `capacity` lies past the end of the slot array
    requires ar != null ==> ar.Valid() && index != ar.capacity
    modifies if ar == null then {} else {ar, ar.slots}
    ensures ar == null <==> r == null
    ensures r != null ==> r.Valid() && r.dataSize == ar.dataSize
    ensures ar != null && !(0 <= index < old(ar.size)) ==>
              r == ar && ar.size == old(ar.size) && ar.Elements() == old(ar.Elements())
    ensures ar != null && 0 <= index < old(ar.size) ==>
              ar.Valid() && ar.size == old(ar.size) - 1 &&
              ar.Elements() == old(ar.Elements())[..index] + old(ar.Elements())[index + 1..] &&
              r.Elements() == ar.Elements()
    ensures ar != null && 0 <= index < old(ar.size) ==>
              if ar.size <= ar.capacity / 2 && ar.capacity / 2 != 0 && allocOk
              then fresh(r) && fresh(r.slots) && r.capacity == ar.capacity / 2
              else r == ar
  {
    if index < 0 || ar == null {
      return ar;
    }
    if index > ar.capacity {
      return ar;
    }
    if ar.slots[index].None? {
      return ar;
    }
    ar.RemoveAt(index);
    if ar.size <= ar.capacity / 2 {
      r := Downsize(ar, allocOk);
    } else {
      r := ar;
    }
  }

  /** `contains`: whether the comparator reports 0 for `data` against some
      element. A NULL comparator or NULL `data` reports no. */
  method Contains(data: Option<Bytes>, ar: Arl?, cmp: Option<(Bytes, Bytes) -> int>) returns (found: bool)
    // the source reads `ar->size` without checking `ar` for NULL
    requires cmp.Some? && data.Some? ==> ar != null && ar.Valid()
    ensures found <==>
              cmp.Some? && data.Some? &&
              exists i :: 0 <= i < ar.size && cmp.value(data.value, ar.slots[i].value) == 0
  {
    if cmp.None? {
      return false;
    }
    if data.None? {
      return false;
    }
    var i := 0;
    while i < ar.size
      invariant 0 <= i <= ar.size
      invariant forall j :: 0 <= j < i ==> cmp.value(data.value, ar.slots[j].value) != 0
    {
      if cmp.value(data.value, ar.slots[i].value) == 0 {
        return true;
      }
      i := i + 1;
    }
    found := false;
  }

  /** `get_deep`: a copy of element `index`. Slots are values here, so the
      copy shares nothing with the list. */
  method GetDeep(index: nat, ar: Arl?, allocOk: bool) returns (r: Option<Bytes>)
    // slot `size` is NULL or past the end: copying from it is undefined
    requires ar != null ==> ar.Valid() && index != ar.size
    ensures r.Some? <==> ar != null && index < ar.size && allocOk
    ensures r.Some? ==> ar != null && index < ar.size && r.value == ar.Elements()[index]
  {
    if ar == null {
      return None;
    }
    if index > ar.size {
      return None;
    }
    if !allocOk {
      return None;
    }
    r := Some(ar.slots[index].value[..ar.dataSize]);
  }

  /** `get_shallow`: the slot's own content: element `index`, or NULL for
      the slot just past the last element. */
  method GetShallow(index: nat, ar: Arl?) returns (r: Option<Bytes>)
    // in a full list slot `size` lies past the end of the slot array
    requires ar != null ==> ar.Valid() && !(index == ar.size == ar.capacity)
    ensures r.Some? <==> ar != null && index < ar.size
    ensures r.Some? ==> ar != null && index < ar.size && r.value == ar.Elements()[index]
  {
    if ar == null {
      return None;
    }
    if index > ar.size {
      return None;
    }
    r := ar.slots[index];
  }
}
