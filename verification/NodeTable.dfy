/** The attribution probe's per-node table: how often each trigger node ran and the cycles it took. It is
    kept at most half full, probing is bounded, and what finds no slot is counted as overflow. */
module NodeTables {
  import opened Wrappers
  import opened Probing
  import opened Sums

  const MAX_PROBES: nat := 64

  datatype Slot = Slot(key: nat, count: nat, cycles: nat, used: bool)

  const FREE := Slot(0, 0, 0, false)

  function ViewOf(t: seq<Slot>): (v: View<nat>)
    ensures |v| == |t|
    ensures forall j :: 0 <= j < |t| ==> v[j] == if t[j].used then Some(t[j].key) else None
  {
    seq(|t|, j requires 0 <= j < |t| => if t[j].used then Some(t[j].key) else None)
  }

  /** A table's fields and, for the statements only, how many records were lost with the slots a merge
      dropped: such a slot adds one to the overflow however many records it stood for. */
  datatype Table = Table(slots: seq<Slot>, used: nat, total: nat, overflow: nat, lost: nat)

  predicate Full(t: Table) {
    2 * t.used >= |t.slots|
  }

  /** A table after reset: of each slot only the flag is cleared. */
  function Cleared(slots: seq<Slot>): (t: Table)
    ensures |t.slots| == |slots| && forall s :: s in t.slots ==> !s.used
  {
    Table(seq(|slots|, j requires 0 <= j < |slots| => slots[j].(used := false)), 0, 0, 0, 0)
  }

  /** Slot s put where its key belongs: added to the slot of its key, or set in a free slot if the load
      allows it. None when it is dropped. */
  function Stored(hash: nat -> nat, t: Table, s: Slot): Option<Table>
    requires |t.slots| > 0
  {
    match Place(ViewOf(t.slots), s.key, hash, MAX_PROBES)
    case None => None
    case Some(i) =>
      var d := t.slots[i];
      if d.used then Some(t.(slots := t.slots[i := d.(count := d.count + s.count, cycles := d.cycles + s.cycles)]))
      else if Full(t) then None
      else Some(t.(slots := t.slots[i := s], used := t.used + 1))
  }

  function AfterRecord(hash: nat -> nat, t: Table, key: nat, cycles: nat): (t': Table)
    requires |t.slots| > 0
  {
    match Stored(hash, t, Slot(key, 1, cycles, true))
    case Some(t') => t'.(total := t.total + 1)
    case None => t.(total := t.total + 1, overflow := t.overflow + 1)
  }

  function AfterMergeSlot(hash: nat -> nat, t: Table, s: Slot): (t': Table)
    requires |t.slots| > 0
    ensures |t'.slots| == |t.slots|
  {
    match Stored(hash, t, s)
    case Some(t') => t'
    case None => t.(overflow := t.overflow + 1, lost := t.lost + if s.count > 0 then s.count - 1 else 0)
  }

  function MergeSlots(hash: nat -> nat, t: Table, slots: seq<Slot>): (t': Table)
    requires |t.slots| > 0
    ensures |t'.slots| == |t.slots|
  {
    if slots == [] then t
    else
      var before := MergeSlots(hash, t, slots[..|slots| - 1]);
      var s := slots[|slots| - 1];
      if s.used then AfterMergeSlot(hash, before, s) else before
  }

  function Merge(hash: nat -> nat, t: Table, other: Table): (t': Table)
    requires |t.slots| > 0
  {
    var m := MergeSlots(hash, t, other.slots);
    m.(total := m.total + other.total, overflow := m.overflow + other.overflow, lost := m.lost + other.lost)
  }

  // ---- the shape stays sound -----------------------------------------------------------------

  ghost predicate Positive(slots: seq<Slot>) {
    forall s :: s in slots && s.used ==> s.count > 0
  }

  /** Each key has one slot, used counts the slots in use, and they are at most half. */
  ghost predicate Sound(hash: nat -> nat, t: Table) {
    && |t.slots| > 0 && Coherent(ViewOf(t.slots), hash, MAX_PROBES)
    && t.used == Occupied(ViewOf(t.slots)) && 2 * t.used <= |t.slots|
    && Positive(t.slots)
  }

  lemma ClearedIsSound(hash: nat -> nat, slots: seq<Slot>)
    requires slots != []
    ensures Sound(hash, Cleared(slots))
  {
    NoneOccupied(ViewOf(Cleared(slots).slots));
  }

  lemma StoredView(hash: nat -> nat, t: Table, s: Slot)
    requires |t.slots| > 0 && s.used && s.count > 0 && Stored(hash, t, s).Some? && Positive(t.slots)
    ensures var t', v, i := Stored(hash, t, s).value, ViewOf(t.slots), Place(ViewOf(t.slots), s.key, hash, MAX_PROBES);
            && i.Some? && ViewOf(t'.slots) == v[i.value := Some(s.key)]
            && t'.used == (if v[i.value].None? then t.used + 1 else t.used) && (v[i.value].None? ==> !Full(t))
            && Positive(t'.slots) && |t'.slots| == |t.slots|
  {
    hide Place;
    var t', v, i := Stored(hash, t, s).value, ViewOf(t.slots), Place(ViewOf(t.slots), s.key, hash, MAX_PROBES).value;
    assert v[i] in {None, Some(s.key)};
    assert ViewOf(t'.slots) == v[i := Some(s.key)];
  }

  lemma StoredIsSound(hash: nat -> nat, t: Table, s: Slot)
    requires Sound(hash, t) && s.used && s.count > 0 && |t.slots| % 2 == 0
    ensures Stored(hash, t, s).Some? ==>
              Sound(hash, Stored(hash, t, s).value) && |Stored(hash, t, s).value.slots| == |t.slots|
  {
    hide Place, Probing.Coherent, Occupied, Stored, ViewOf, Positive, Find, FindFrom, Home;
    if Stored(hash, t, s).Some? {
      var v := ViewOf(t.slots);
      StoredView(hash, t, s);
      PlaceKeepsCoherent(v, s.key, hash, MAX_PROBES);
      OccupiedUpdate(v, Place(v, s.key, hash, MAX_PROBES).value, s.key);
    }
  }

  /** A slot is dropped exactly when its key is not in the table and the table is half full or the probes
      find no free slot; a key in the table always finds its slot. */
  lemma DroppedExactly(hash: nat -> nat, t: Table, s: Slot)
    requires Sound(hash, t)
    ensures Stored(hash, t, s).None? <==>
            && Some(s.key) !in ViewOf(t.slots)
            && (2 * t.used >= |t.slots|
                || forall n :: 0 <= n < 64 ==> t.slots[ProbeAt(ViewOf(t.slots), s.key, hash, n)].used)
  {
    hide Place, Occupied, Find, Probing.Coherent, ProbeAt;
    var v := ViewOf(t.slots);
    AbsentKey(v, s.key, hash, MAX_PROBES);
    var p := Place(v, s.key, hash, MAX_PROBES);
    if p.Some? && v[p.value] == Some(s.key) { assert v[p.value] in v; }
    NoPlaceExactly(v, s.key, hash, MAX_PROBES);
  }

  // ---- what is counted -----------------------------------------------------------------------

  /** What a table can be asked to sum: all counts, one key's count, one key's cycles. */
  datatype Measure = All | CountOf(key: nat) | CyclesOf(key: nat)

  function Weight(s: Slot, m: Measure): nat {
    if !s.used then 0
    else
      match m
      case All => s.count
      case CountOf(k) => if s.key == k then s.count else 0
      case CyclesOf(k) => if s.key == k then s.cycles else 0
  }

  function Weigh(m: Measure): Slot -> nat {
    (s: Slot) => Weight(s, m)
  }

  function Total(slots: seq<Slot>, m: Measure): nat {
    Sum(slots, Weigh(m))
  }

  lemma TotalOfFree(slots: seq<Slot>, m: Measure)
    requires forall s :: s in slots ==> !s.used
    ensures Total(slots, m) == 0
  {
    SumZero(slots, Weigh(m));
  }

  lemma StoredWeighs(hash: nat -> nat, t: Table, s: Slot, m: Measure)
    requires |t.slots| > 0 && s.used && Stored(hash, t, s).Some?
    ensures Total(Stored(hash, t, s).value.slots, m) == Total(t.slots, m) + Weight(s, m)
  {
    hide Sum, Place;
    var i := Place(ViewOf(t.slots), s.key, hash, MAX_PROBES).value;
    SumUpdate(t.slots, i, Stored(hash, t, s).value.slots[i], Weigh(m));
    assert ViewOf(t.slots)[i] in {None, Some(s.key)};
  }

  // ---- runs ----------------------------------------------------------------------------------

  datatype Entry = Entry(key: nat, cycles: nat)

  /** How a table came about. */
  datatype History =
    | Fresh(stale: seq<Slot>)
    | Recorded(before: History, key: nat, cycles: nat)
    | Merged(before: History, other: History)

  predicate OfSize(capacity: nat, h: History) {
    match h
    case Fresh(stale) => |stale| == capacity
    case Recorded(before, _, _) => OfSize(capacity, before)
    case Merged(before, other) => OfSize(capacity, before) && OfSize(capacity, other)
  }

  function TableOf(hash: nat -> nat, capacity: nat, h: History): (t: Table)
    requires capacity > 0 && OfSize(capacity, h)
    ensures |t.slots| == capacity
  {
    match h
    case Fresh(stale) => Cleared(stale)
    case Recorded(before, key, cycles) => AfterRecord(hash, TableOf(hash, capacity, before), key, cycles)
    case Merged(before, other) => Merge(hash, TableOf(hash, capacity, before), TableOf(hash, capacity, other))
  }

  function RecordsOf(h: History): seq<Entry> {
    match h
    case Fresh(_) => []
    case Recorded(before, key, cycles) => RecordsOf(before) + [Entry(key, cycles)]
    case Merged(before, other) => RecordsOf(before) + RecordsOf(other)
  }

  /** A record weighs what a slot with just that record would. */
  function WeighRecord(m: Measure): Entry -> nat {
    (e: Entry) => Weight(Slot(e.key, 1, e.cycles, true), m)
  }

  function WeightOf(rs: seq<Entry>, m: Measure): nat {
    Sum(rs, WeighRecord(m))
  }

  lemma NotEmpty(hash: nat -> nat, t: Table)
    requires Sound(hash, t)
    ensures |t.slots| > 0
  {
  }

  lemma {:induction false} MergeIsSound(hash: nat -> nat, t: Table, slots: seq<Slot>)
    requires Sound(hash, t) && |t.slots| % 2 == 0 && Positive(slots)
    ensures |t.slots| > 0 && Sound(hash, MergeSlots(hash, t, slots))
  {
    hide Stored, Sound;
    NotEmpty(hash, t);
    if slots != [] {
      var before := MergeSlots(hash, t, slots[..|slots| - 1]);
      MergeIsSound(hash, t, slots[..|slots| - 1]);
      var s := slots[|slots| - 1];
      if s.used {
        StoredIsSound(hash, before, s);
        var stored := Stored(hash, before, s);
        IgnoresCounters(hash, if stored.Some? then stored.value else before, AfterMergeSlot(hash, before, s));
      }
    }
  }

  /** Soundness is about the slots and their number in use only. */
  lemma IgnoresCounters(hash: nat -> nat, t: Table, t': Table)
    requires Sound(hash, t) && t'.slots == t.slots && t'.used == t.used
    ensures Sound(hash, t')
  {
  }

  /** Over all of a run: one slot a key, at most half the slots in use. */
  lemma {:induction false} RunIsSound(hash: nat -> nat, capacity: nat, h: History)
    requires capacity > 0 && capacity % 2 == 0 && OfSize(capacity, h)
    ensures Sound(hash, TableOf(hash, capacity, h))
  {
    hide Stored, Sound, MergeSlots;
    match h
    case Fresh(stale) => ClearedIsSound(hash, stale);
    case Recorded(before, key, cycles) =>
      var t := TableOf(hash, capacity, before);
      RunIsSound(hash, capacity, before);
      StoredIsSound(hash, t, Slot(key, 1, cycles, true));
      var stored := Stored(hash, t, Slot(key, 1, cycles, true));
      IgnoresCounters(hash, if stored.Some? then stored.value else t, TableOf(hash, capacity, h));
    case Merged(before, other) =>
      var t, o := TableOf(hash, capacity, before), TableOf(hash, capacity, other);
      RunIsSound(hash, capacity, before);
      RunIsSound(hash, capacity, other);
      SoundCounts(hash, o);
      MergeIsSound(hash, t, o.slots);
      IgnoresCounters(hash, MergeSlots(hash, t, o.slots), TableOf(hash, capacity, h));
  }

  lemma SoundCounts(hash: nat -> nat, t: Table)
    requires Sound(hash, t)
    ensures Positive(t.slots)
  {
  }

  /** Merging slots adds their weight, less that of the dropped ones. */
  lemma {:induction false} MergeWeighs(hash: nat -> nat, t: Table, slots: seq<Slot>, m: Measure)
    requires |t.slots| > 0
    ensures var t' := MergeSlots(hash, t, slots);
            && t.overflow <= t'.overflow && Total(t'.slots, m) <= Total(t.slots, m) + Total(slots, m)
            && (t'.overflow == t.overflow ==> Total(t'.slots, m) == Total(t.slots, m) + Total(slots, m))
            && t'.total == t.total && (t'.overflow == t.overflow ==> t'.lost == t.lost)
  {
    hide Stored, Weight;
    if slots != [] {
      var before := MergeSlots(hash, t, slots[..|slots| - 1]);
      MergeWeighs(hash, t, slots[..|slots| - 1], m);
      var s := slots[|slots| - 1];
      StoredKeeps(hash, before, s);
      if s.used {
        if Stored(hash, before, s).Some? { StoredWeighs(hash, before, s, m); }
      } else {
        UnusedWeighsNothing(s, m);
      }
    }
  }

  lemma UnusedWeighsNothing(s: Slot, m: Measure)
    requires !s.used
    ensures Weight(s, m) == 0
  {
  }

  lemma StoredKeeps(hash: nat -> nat, t: Table, s: Slot)
    requires |t.slots| > 0
    ensures Stored(hash, t, s).Some? ==>
              var t' := Stored(hash, t, s).value; t'.total == t.total && t'.overflow == t.overflow && t'.lost == t.lost
  {
  }

  /** No key is ever given more counts or cycles than were recorded for it, and exactly those when nothing
      overflowed, whatever tables were merged in whatever order. */
  lemma {:induction false} RunWeighs(hash: nat -> nat, capacity: nat, h: History, m: Measure)
    requires capacity > 0 && OfSize(capacity, h)
    ensures var t := TableOf(hash, capacity, h);
            && Total(t.slots, m) <= WeightOf(RecordsOf(h), m)
            && (t.overflow == 0 ==> Total(t.slots, m) == WeightOf(RecordsOf(h), m))
  {
    hide Stored, Weight, MergeSlots;
    match h
    case Fresh(stale) => TotalOfFree(Cleared(stale).slots, m);
    case Recorded(before, key, cycles) =>
      var t, s := TableOf(hash, capacity, before), Slot(key, 1, cycles, true);
      RunWeighs(hash, capacity, before, m);
      StoredKeeps(hash, t, s);
      if Stored(hash, t, s).Some? { StoredWeighs(hash, t, s, m); }
      SumAppend(RecordsOf(before), [Entry(key, cycles)], WeighRecord(m));
      SumOne(Entry(key, cycles), WeighRecord(m));
    case Merged(before, other) =>
      var t, o := TableOf(hash, capacity, before), TableOf(hash, capacity, other);
      RunWeighs(hash, capacity, before, m);
      RunWeighs(hash, capacity, other, m);
      MergeWeighs(hash, t, o.slots, m);
      SumAppend(RecordsOf(before), RecordsOf(other), WeighRecord(m));
  }

  // ---- conservation --------------------------------------------------------------------------

  ghost predicate Accounted(t: Table) {
    Total(t.slots, All) + t.overflow + t.lost == t.total
  }

  lemma {:induction false} MergeAccounts(hash: nat -> nat, t: Table, slots: seq<Slot>)
    requires |t.slots| > 0 && Positive(slots)
    ensures var t' := MergeSlots(hash, t, slots);
            Total(t'.slots, All) + t'.overflow + t'.lost ==
              Total(t.slots, All) + t.overflow + t.lost + Total(slots, All)
  {
    hide Stored;
    if slots != [] {
      var before := MergeSlots(hash, t, slots[..|slots| - 1]);
      MergeAccounts(hash, t, slots[..|slots| - 1]);
      var s := slots[|slots| - 1];
      StoredKeeps(hash, before, s);
      if s.used && Stored(hash, before, s).Some? { StoredWeighs(hash, before, s, All); }
    }
  }

  /** No merge of the run drops a slot. Records may overflow all the same. */
  predicate KeepsSlots(hash: nat -> nat, capacity: nat, h: History)
    requires capacity > 0 && OfSize(capacity, h)
  {
    match h
    case Fresh(_) => true
    case Recorded(before, _, _) => KeepsSlots(hash, capacity, before)
    case Merged(before, other) =>
      var t, o := TableOf(hash, capacity, before), TableOf(hash, capacity, other);
      && KeepsSlots(hash, capacity, before) && KeepsSlots(hash, capacity, other)
      && MergeSlots(hash, t, o.slots).overflow == t.overflow
  }

  /** Counts, overflow and what dropped slots lost add up to the records, of which total keeps the number.
      So counts and overflow never exceed it, and are equal to it when no merge drops a slot. */
  lemma {:induction false} RecordsAreConserved(hash: nat -> nat, capacity: nat, h: History)
    requires capacity > 0 && capacity % 2 == 0 && OfSize(capacity, h)
    ensures var t := TableOf(hash, capacity, h);
            && Accounted(t) && t.total == |RecordsOf(h)| && Total(t.slots, All) + t.overflow <= t.total
            && (KeepsSlots(hash, capacity, h) ==> t.lost == 0 && Total(t.slots, All) + t.overflow == t.total)
  {
    hide Stored, MergeSlots, Sound, Total;
    match h
    case Fresh(stale) => TotalOfFree(Cleared(stale).slots, All);
    case Recorded(before, key, cycles) =>
      var t, s := TableOf(hash, capacity, before), Slot(key, 1, cycles, true);
      RecordsAreConserved(hash, capacity, before);
      StoredKeeps(hash, t, s);
      if Stored(hash, t, s).Some? { StoredWeighs(hash, t, s, All); }
    case Merged(before, other) =>
      var t, o := TableOf(hash, capacity, before), TableOf(hash, capacity, other);
      RecordsAreConserved(hash, capacity, before);
      RecordsAreConserved(hash, capacity, other);
      RunIsSound(hash, capacity, other);
      SoundCounts(hash, o);
      MergeAccounts(hash, t, o.slots);
      MergeWeighs(hash, t, o.slots, All);
  }

  // ---- the table object ----------------------------------------------------------------------

  class NodeTable {
    const slots: array<Slot>
    const hash: nat -> nat
    var used: nat
    var total: nat
    var overflow: nat
    ghost var lost: nat

    constructor (capacity: nat, hash: nat -> nat)
      requires capacity > 0
      ensures fresh(slots) && this.hash == hash && slots.Length == capacity && Value() == Cleared(slots[..])
    {
      this.hash := hash;
      slots := new Slot[capacity](_ => FREE);
      used, total, overflow, lost := 0, 0, 0, 0;
    }

    ghost function Value(): Table
      reads this, slots
    {
      Table(slots[..], used, total, overflow, lost)
    }

    method Record(key: nat, cycles: nat)
      requires slots.Length > 0
      modifies this, slots
      ensures Value() == AfterRecord(hash, old(Value()), key, cycles)
    {
      hide Place, Home;
      ghost var v := ViewOf(slots[..]);
      total := total + 1;
      PlaceStart(v, key, hash, MAX_PROBES);
      var i: nat := Home(hash(key), slots.Length);
      var p: nat := 0;
      while p < MAX_PROBES
        invariant unchanged(slots) && total == old(total) + 1
        invariant used == old(used) && overflow == old(overflow) && lost == old(lost)
        invariant i < slots.Length && p <= MAX_PROBES
        invariant Place(v, key, hash, MAX_PROBES) == PlaceFrom(v, key, i, MAX_PROBES - p)
      {
        var s := slots[i];
        if s.used && s.key == key {
          slots[i] := s.(count := s.count + 1, cycles := s.cycles + cycles);
          return;
        }
        if !s.used {
          if 2 * used >= slots.Length { break; }
          slots[i] := Slot(key, 1, cycles, true);
          used := used + 1;
          return;
        }
        i, p := Next(i, slots.Length), p + 1;
      }
      overflow := overflow + 1;
    }

    /** One slot of the other table. */
    method MergeSlot(s: Slot)
      requires slots.Length > 0 && s.used
      modifies this, slots
      ensures Value() == AfterMergeSlot(hash, old(Value()), s)
    {
      hide Place, Home;
      ghost var v := ViewOf(slots[..]);
      PlaceStart(v, s.key, hash, MAX_PROBES);
      var i: nat := Home(hash(s.key), slots.Length);
      var p: nat := 0;
      while p < MAX_PROBES
        invariant unchanged(slots) && unchanged(this)
        invariant i < slots.Length && p <= MAX_PROBES
        invariant Place(v, s.key, hash, MAX_PROBES) == PlaceFrom(v, s.key, i, MAX_PROBES - p)
      {
        var d := slots[i];
        if d.used && d.key == s.key {
          assert v[i] == Some(s.key);
          slots[i] := d.(count := d.count + s.count, cycles := d.cycles + s.cycles);
          return;
        }
        if !d.used {
          assert v[i] == None;
          if 2 * used >= slots.Length { break; }
          slots[i] := s;
          used := used + 1;
          return;
        }
        assert v[i] !in {None, Some(s.key)};
        i, p := Next(i, slots.Length), p + 1;
      }
      overflow := overflow + 1;
      lost := lost + if s.count > 0 then s.count - 1 else 0;
    }

    method MergeFrom(other: NodeTable)
      requires slots.Length > 0 && other != this && other.slots != slots
      modifies this, slots
      ensures Value() == Merge(hash, old(Value()), old(other.Value()))
    {
      hide AfterMergeSlot;
      ghost var o := other.slots[..];
      assert o[..0] == [];
      for j := 0 to other.slots.Length
        invariant unchanged(other) && unchanged(other.slots)
        invariant Value() == MergeSlots(hash, old(Value()), o[..j])
      {
        assert o[..j + 1][..j] == o[..j];
        if other.slots[j].used { MergeSlot(other.slots[j]); }
      }
      assert o[..|o|] == o;
      total := total + other.total;
      overflow := overflow + other.overflow;
      lost := lost + other.lost;
    }

    /** Only the flag of each slot is cleared. */
    method Reset()
      modifies this, slots
      ensures Value() == Cleared(old(slots[..]))
    {
      forall j | 0 <= j < slots.Length { slots[j] := slots[j].(used := false); }
      used, total, overflow, lost := 0, 0, 0, 0;
    }
  }
}
