/** The growable set of trigger nodes marked uncacheable: an open-addressed table whose empty slots hold
    zero, with a flag of its own for the node zero. It never shrinks. */
module NodeFlagSets {
  import opened Probing
  import opened MarkedTables

  const INITIAL_CAPACITY: nat := 4096

  lemma InitialPowerOfTwo()
    ensures PowerOfTwo(INITIAL_CAPACITY)
  {
    assert PowerOfTwo(4);
    assert PowerOfTwo(32);
    assert PowerOfTwo(256);
    assert PowerOfTwo(2048);
  }

  /** The flag for zero is independent of the nodes in the table. */
  lemma WithZero(nodes: set<nat>, hasZero: bool, node: nat)
    requires node != 0
    ensures var zero := if hasZero then {0} else {};
            && (nodes + {node}) + zero == (nodes + zero) + {node} && (node in nodes + zero <==> node in nodes)
  {
  }

  class NodeFlagSet {
    var slots: array<nat>
    var count: nat
    var hasZero: bool
    const hash: nat -> nat

    /** The table is in order, however full. */
    ghost predicate InOrder()
      reads this, slots
    {
      && slots.Length > 0
      && count == Occupied(ViewOf(slots[..], 0)) == |Elements(slots[..], 0)|
      && Probing.Coherent(ViewOf(slots[..], 0), hash, slots.Length)
    }

    ghost predicate Valid()
      reads this, slots
    {
      && InOrder() && PowerOfTwo(slots.Length) && 2 * count <= slots.Length
      && (slots.Length <= INITIAL_CAPACITY || slots.Length <= 4 * count)
    }

    ghost function Contents(): set<nat>
      reads this, slots
    {
      Elements(slots[..], 0) + if hasZero then {0} else {}
    }

    constructor (hash: nat -> nat)
      ensures Valid() && fresh(slots)
      ensures Contents() == {} && slots.Length == INITIAL_CAPACITY && this.hash == hash
    {
      this.hash := hash;
      slots := new nat[INITIAL_CAPACITY](_ => 0);
      count, hasZero := 0, false;
      new;
      hide Occupied, Probing.Coherent;
      InitialPowerOfTwo();
      FreshTable(slots[..], 0, hash);
    }

    method Contains(node: nat) returns (found: bool)
      requires Valid()
      ensures found <==> node in Contents()
    {
      hide Distance, PowerOfTwo, Occupied, Home, Elements, Find, Probing.Coherent;
      NotAnElement(slots[..], 0);
      if node == 0 { return hasZero; }
      ghost var s, v := slots[..], ViewOf(slots[..], 0);
      var i := Home(hash(node), slots.Length);
      ghost var e := SomeSlotIsEmpty(v);
      ghost var p := slots.Length;
      FindStart(s, 0, hash, node);
      while slots[i] != 0
        invariant 0 <= i < slots.Length && Distance(i, e, slots.Length) < p
        invariant node in Elements(s, 0) <==> FindFrom(v, node, i, p).Some?
        decreases p
      {
        if slots[i] == node { return true; }
        DistanceStep(i, e, slots.Length);
        i, p := Next(i, slots.Length), p - 1;
      }
      return false;
    }

    /** Growing comes before the search, so a node already present can grow the table too. */
    method Insert(node: nat)
      requires Valid()
      modifies this, slots
      ensures Valid() && (slots == old(slots) || fresh(slots))
      ensures Contents() == old(Contents()) + {node}
      ensures slots.Length == if node != 0 && 2 * (old(count) + 1) > old(slots.Length)
                              then 2 * old(slots.Length) else old(slots.Length)
      ensures count == old(count) + if node == 0 || node in old(Contents()) then 0 else 1
    {
      hide PowerOfTwo, Occupied, Home, Elements, Find, Probing.Coherent;
      NotAnElement(slots[..], 0);
      if node == 0 {
        hasZero := true;
        return;
      }
      hide Valid;
      ghost var nodes := Elements(slots[..], 0);
      if 2 * (count + 1) > slots.Length { Grow(); }
      InsertWithRoom(node);
      WithZero(nodes, hasZero, node);
    }

    /** The search of Insert, ending in the slot where the node is or goes. */
    method InsertWithRoom(node: nat)
      requires Valid() && node != 0 && 2 * (count + 1) <= slots.Length
      modifies this, slots
      ensures Valid() && slots == old(slots) && hasZero == old(hasZero)
      ensures Elements(slots[..], 0) == old(Elements(slots[..], 0)) + {node}
      ensures count == old(count) + if node in old(Elements(slots[..], 0)) then 0 else 1
    {
      hide Distance, PowerOfTwo, Occupied, Home, Probing.Coherent, Elements, Place;
      ghost var s, v := slots[..], ViewOf(slots[..], 0);
      var i := Home(hash(node), slots.Length);
      ghost var e := SomeSlotIsEmpty(v);
      ghost var p := slots.Length;
      PlaceStart(v, node, hash, p);
      while slots[i] != 0
        invariant unchanged(this) && unchanged(slots)
        invariant 0 <= i < slots.Length && Distance(i, e, slots.Length) < p
        invariant Place(v, node, hash, slots.Length) == PlaceFrom(v, node, i, p)
        decreases p
      {
        if slots[i] == node {
          SlotHolds(s, 0, i);
          assert slots[..] == s;
          assert Elements(slots[..], 0) == Elements(s, 0) + {node};
          return;
        }
        DistanceStep(i, e, slots.Length);
        i, p := Next(i, slots.Length), p - 1;
      }
      FillSlot(s, 0, hash, node, i);
      slots[i] := node;
      count := count + 1;
      assert slots[..] == s[i := node];
    }

    /** Doubles the table and puts every node back without looking for it. */
    method Grow()
      requires Valid() && 2 * (count + 1) > slots.Length
      modifies this, slots
      ensures Valid() && fresh(slots) && slots.Length == 2 * old(slots.Length) && hasZero == old(hasZero)
      ensures Elements(slots[..], 0) == old(Elements(slots[..], 0)) && count == old(count)
      ensures 2 * (count + 1) <= slots.Length
    {
      hide Occupied, Probing.Coherent, PowerOfTwo, ViewOf, Elements;
      var before := slots;
      ghost var s, v := before[..], ViewOf(before[..], 0);
      assert Probing.Coherent(v, hash, |s|) && Occupied(v) == count;
      slots := new nat[2 * before.Length](_ => 0);
      count := 0;
      FreshTable(slots[..], 0, hash);
      Doubled(before.Length, old(count));
      NoPrefix(s, 0);
      assert InOrder();
      hide InOrder;
      var j := 0;
      while j < before.Length
        invariant 0 <= j <= |s| == before.Length && before[..] == s && fresh(slots) && slots.Length == 2 * |s|
        invariant hasZero == old(hasZero) && InOrder()
        invariant Elements(slots[..], 0) == Elements(s[..j], 0) && count == Occupied(v[..j])
      {
        Prefix(s, 0, hash, j);
        if before[j] != 0 { PutBack(before[j]); }
        j := j + 1;
      }
      assert s[..j] == s && v[..j] == v;
    }

    /** Puts a node that is not in the table into the first free slot. */
    method PutBack(node: nat)
      requires InOrder() && count < slots.Length && node != 0 && node !in Elements(slots[..], 0)
      modifies this, slots
      ensures slots == old(slots) && hasZero == old(hasZero)
      ensures InOrder() && count == old(count) + 1
      ensures Elements(slots[..], 0) == old(Elements(slots[..], 0)) + {node}
    {
      hide Distance, PowerOfTwo, Occupied, Home, Probing.Coherent, Elements, Place;
      ghost var s, v := slots[..], ViewOf(slots[..], 0);
      var i := Home(hash(node), slots.Length);
      ghost var e := SomeSlotIsEmpty(v);
      ghost var p := slots.Length;
      PlaceStart(v, node, hash, p);
      while slots[i] != 0
        invariant unchanged(this) && unchanged(slots)
        invariant 0 <= i < slots.Length && Distance(i, e, slots.Length) < p
        invariant Place(v, node, hash, slots.Length) == PlaceFrom(v, node, i, p)
        decreases p
      {
        SlotHolds(s, 0, i);
        DistanceStep(i, e, slots.Length);
        i, p := Next(i, slots.Length), p - 1;
      }
      FillSlot(s, 0, hash, node, i);
      slots[i] := node;
      count := count + 1;
      assert slots[..] == s[i := node];
    }
  }
}
