/** The growable set of character handles behind the family lists: an open-addressed table whose empty
    slots hold the invalid handle, kept at most half full. */
module HandleSets {
  import opened Probing
  import opened MarkedTables
  import opened Scopes

  const INITIAL_CAPACITY: nat := 1024

  lemma InitialPowerOfTwo()
    ensures PowerOfTwo(INITIAL_CAPACITY)
  {
    assert PowerOfTwo(4);
    assert PowerOfTwo(32);
    assert PowerOfTwo(256);
  }

  class HandleSet {
    var slots: array<nat>
    var count: nat
    const hash: nat -> nat
    ghost var peak: nat          // the largest count ever held

    ghost predicate Valid()
      reads this, slots
    {
      && slots.Length > 0 && PowerOfTwo(slots.Length)
      && count == Occupied(ViewOf(slots[..], INVALID_HANDLE)) == |Contents()|
      && 2 * count <= slots.Length
      && Probing.Coherent(ViewOf(slots[..], INVALID_HANDLE), hash, slots.Length)
      && count <= peak && (slots.Length <= INITIAL_CAPACITY || slots.Length <= 4 * peak)
    }

    ghost function Contents(): set<nat>
      reads this, slots
    {
      Elements(slots[..], INVALID_HANDLE)
    }

    constructor (hash: nat -> nat)
      ensures Valid() && fresh(slots)
      ensures Contents() == {} && slots.Length == INITIAL_CAPACITY && peak == 0 && this.hash == hash
    {
      this.hash := hash;
      slots := new nat[INITIAL_CAPACITY](_ => INVALID_HANDLE);
      count, peak := 0, 0;
      new;
      InitialPowerOfTwo();
      NoneOccupied(ViewOf(slots[..], INVALID_HANDLE));
      assert Contents() == {};
    }

    method Contains(h: nat) returns (found: bool)
      requires Valid()
      ensures found <==> h in Contents()
    {
      hide Distance, PowerOfTwo, Occupied, Home, Elements, Find, Probing.Coherent;
      if h == INVALID_HANDLE {
        NotAnElement(slots[..], INVALID_HANDLE);
        return false;
      }
      ghost var s, v := slots[..], ViewOf(slots[..], INVALID_HANDLE);
      var i := Home(hash(h), slots.Length);
      ghost var e := SomeSlotIsEmpty(v);
      ghost var p := slots.Length;
      FindStart(s, INVALID_HANDLE, hash, h);
      while slots[i] != INVALID_HANDLE
        invariant 0 <= i < slots.Length && Distance(i, e, slots.Length) < p
        invariant h in Elements(s, INVALID_HANDLE) <==> FindFrom(v, h, i, p).Some?
        decreases p
      {
        if slots[i] == h { return true; }
        DistanceStep(i, e, slots.Length);
        i, p := Next(i, slots.Length), p - 1;
      }
      return false;
    }

    /** Inserts h; false when h is the invalid handle or already present. Growing comes first, so a
        duplicate can grow the table too. Inside Grow the measure only allows an insert that does not
        grow again. */
    method Insert(h: nat) returns (added: bool)
      requires Valid()
      modifies this, slots
      ensures Valid() && (slots == old(slots) || fresh(slots))
      ensures Contents() == if h == INVALID_HANDLE then old(Contents()) else old(Contents()) + {h}
      ensures added <==> h != INVALID_HANDLE && h !in old(Contents())
      ensures slots.Length == if h != INVALID_HANDLE && 2 * (old(count) + 1) > old(slots.Length)
                              then 2 * old(slots.Length) else old(slots.Length)
      ensures count == old(count) + (if added then 1 else 0)
      ensures peak == if count > old(peak) then count else old(peak)
      decreases if 2 * (count + 1) > slots.Length then 2 else 0
    {
      if h == INVALID_HANDLE { return false; }
      if 2 * (count + 1) > slots.Length { Grow(); }
      added := InsertWithRoom(h);
    }

    /** Empties the set and keeps the capacity. */
    method Clear()
      requires Valid()
      modifies this, slots
      ensures Valid() && slots == old(slots) && peak == old(peak)
      ensures Contents() == {} && count == 0
    {
      hide Occupied, PowerOfTwo, Elements, Probing.Coherent;
      if count == 0 { return; }
      forall j | 0 <= j < slots.Length { slots[j] := INVALID_HANDLE; }
      count := 0;
      FreshTable(slots[..], INVALID_HANDLE, hash);
    }

    /** Takes an empty table of twice the size; what it replaces is still coherent. */
    method StartOver() returns (before: array<nat>)
      requires Valid() && 2 * (count + 1) > slots.Length
      modifies this
      ensures Valid() && fresh(slots) && slots.Length == 2 * before.Length && before == old(slots) && before.Length > 0
      ensures Contents() == {} && count == 0 && peak == old(peak) && old(count) <= peak
      ensures var s := before[..];
              && Probing.Coherent(ViewOf(s, INVALID_HANDLE), hash, |s|)
              && Elements(s, INVALID_HANDLE) == old(Contents()) && Occupied(ViewOf(s, INVALID_HANDLE)) == old(count)
              && 2 * old(count) <= |s|
    {
      hide Occupied, Probing.Coherent, PowerOfTwo, ViewOf, Elements;
      before := slots;
      slots := new nat[2 * before.Length](_ => INVALID_HANDLE);
      count := 0;
      FreshTable(slots[..], INVALID_HANDLE, hash);
      Doubled(before.Length, old(count));
    }

    /** Doubles the table and reinserts every handle. */
    method Grow()
      requires Valid() && 2 * (count + 1) > slots.Length
      modifies this, slots
      ensures Valid() && fresh(slots) && slots.Length == 2 * old(slots.Length)
      ensures Contents() == old(Contents()) && count == old(count) && peak == old(peak)
      decreases 1
    {
      hide Occupied, Probing.Coherent, PowerOfTwo, ViewOf, Elements, Valid, Contents;
      var before := StartOver();
      ghost var s, v := before[..], ViewOf(before[..], INVALID_HANDLE);
      NoPrefix(s, INVALID_HANDLE);
      var j := 0;
      while j < before.Length
        invariant 0 <= j <= |s| == before.Length && before[..] == s && fresh(slots) && slots.Length == 2 * |s|
        invariant Valid() && peak == old(peak)
        invariant Contents() == Elements(s[..j], INVALID_HANDLE) && count == Occupied(v[..j])
      {
        Prefix(s, INVALID_HANDLE, hash, j);
        if before[j] != INVALID_HANDLE {
          var added := Insert(before[j]);
        }
        j := j + 1;
      }
      assert s[..j] == s && v[..j] == v;
    }

    method InsertWithRoom(h: nat) returns (added: bool)
      requires Valid() && h != INVALID_HANDLE && 2 * (count + 1) <= slots.Length
      modifies this, slots
      ensures Valid() && slots == old(slots)
      ensures Contents() == old(Contents()) + {h}
      ensures added <==> h !in old(Contents())
      ensures count == old(count) + (if added then 1 else 0)
      ensures peak == if count > old(peak) then count else old(peak)
      decreases 0
    {
      hide Distance, PowerOfTwo, Occupied, Home, Probing.Coherent, Elements, Place;
      ghost var s, v := slots[..], ViewOf(slots[..], INVALID_HANDLE);
      var i := Home(hash(h), slots.Length);
      ghost var e := SomeSlotIsEmpty(v);
      ghost var p := slots.Length;
      PlaceStart(v, h, hash, p);
      while slots[i] != INVALID_HANDLE
        invariant unchanged(this) && unchanged(slots)
        invariant 0 <= i < slots.Length && Distance(i, e, slots.Length) < p
        invariant Place(v, h, hash, slots.Length) == PlaceFrom(v, h, i, p)
        decreases p
      {
        if slots[i] == h {
          SlotHolds(s, INVALID_HANDLE, i);
          assert slots[..] == s;
          assert Contents() == Elements(s, INVALID_HANDLE) + {h};
          return false;
        }
        DistanceStep(i, e, slots.Length);
        i, p := Next(i, slots.Length), p - 1;
      }
      FillSlot(s, INVALID_HANDLE, hash, h, i);
      slots[i] := h;
      count := count + 1;
      if count > peak { peak := count; }
      assert slots[..] == s[i := h];
      return true;
    }
  }
}
