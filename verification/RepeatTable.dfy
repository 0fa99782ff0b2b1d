/** The repeat tables of the measuring probe: how often each key was evaluated and whether it ever
    returned two results. Each thread records into its own table; tables are merged later. Probing is
    bounded, and what finds no slot is counted as overflow. */
module RepeatTables {
  import opened Wrappers
  import opened Probing
  import opened Sums

  const MAX_COUNT: nat := 0xFFFF_FFFF               // counts are 32 bits wide and saturate
  const ZERO_KEY: nat := 0xFFFF_FFFF_FFFF_FFFF      // what key 0 is recorded as

  datatype Slot = Slot(key: nat, count: nat, first: nat, inconsistent: bool, occupied: bool)

  const FREE := Slot(0, 0, 0, false, false)

  function ViewOf(t: seq<Slot>): (v: View<nat>)
    ensures |v| == |t|
    ensures forall j :: 0 <= j < |t| ==> v[j] == if t[j].occupied then Some(t[j].key) else None
  {
    seq(|t|, j requires 0 <= j < |t| => if t[j].occupied then Some(t[j].key) else None)
  }

  function Min(a: nat, b: nat): nat {
    if a < b then a else b
  }

  function Normal(key: nat): nat {
    if key == 0 then ZERO_KEY else key
  }

  /** The shape of a table: its size, its probe bound and its slot hash. */
  datatype Shape = Shape(capacity: nat, probes: nat, hash: nat -> nat) {
    predicate Ok() {
      1 <= probes <= capacity
    }
  }

  /** A table's contents, its overflow counter and, for the statements only, how many records were lost
      with the slots a merge dropped: such a slot counts once however many records it stood for. */
  datatype Table = Table(slots: seq<Slot>, overflow: nat, lost: nat)

  predicate Fits(g: Shape, t: Table) {
    g.Ok() && |t.slots| == g.capacity
  }

  function Empty(g: Shape): (t: Table) {
    Table(seq(g.capacity, _ => FREE), 0, 0)
  }

  /** The slot after one more record of its key. */
  function Counted(s: Slot, key: nat, result: nat): Slot {
    if !s.occupied then Slot(key, 1, result, false, true)
    else s.(count := if s.count != MAX_COUNT then s.count + 1 else s.count,
            inconsistent := s.inconsistent || result != s.first)
  }

  /** The slot d after slot s, of the same key, is folded into it. */
  function Folded(d: Slot, s: Slot): Slot {
    if !d.occupied then s
    else d.(count := Min(d.count + s.count, MAX_COUNT),
            inconsistent := d.inconsistent || s.inconsistent || s.first != d.first)
  }

  function AfterRecord(g: Shape, t: Table, key: nat, result: nat): (t': Table)
    requires Fits(g, t)
    ensures Fits(g, t')
  {
    match Place(ViewOf(t.slots), Normal(key), g.hash, g.probes)
    case Some(i) => t.(slots := t.slots[i := Counted(t.slots[i], Normal(key), result)])
    case None => t.(overflow := t.overflow + 1)
  }

  function AfterMergeSlot(g: Shape, t: Table, s: Slot): (t': Table)
    requires Fits(g, t)
    ensures Fits(g, t')
  {
    match Place(ViewOf(t.slots), s.key, g.hash, g.probes)
    case Some(i) => t.(slots := t.slots[i := Folded(t.slots[i], s)])
    case None => t.(overflow := t.overflow + 1, lost := t.lost + if s.count > 0 then s.count - 1 else 0)
  }

  /** The occupied slots among the first n of the other table, folded in one after the other. */
  function MergeSlots(g: Shape, t: Table, slots: seq<Slot>): (t': Table)
    requires Fits(g, t)
    ensures Fits(g, t')
  {
    if slots == [] then t
    else
      var before := MergeSlots(g, t, slots[..|slots| - 1]);
      var s := slots[|slots| - 1];
      if s.occupied then AfterMergeSlot(g, before, s) else before
  }

  function Merge(g: Shape, t: Table, other: Table): (t': Table)
    requires Fits(g, t)
    ensures Fits(g, t')
  {
    var m := MergeSlots(g, t, other.slots);
    m.(overflow := m.overflow + other.overflow, lost := m.lost + other.lost)
  }

  // ---- what a table says ---------------------------------------------------------------------

  /** One record: the key as it is kept, and the result. */
  datatype Entry = Entry(key: nat, result: nat)

  type Records = seq<Entry>

  function OneOf(k: nat): Entry -> nat {
    (e: Entry) => if e.key == k then 1 else 0
  }

  /** How often a key was recorded. */
  function CountOf(rs: Records, k: nat): nat {
    Sum(rs, OneOf(k))
  }

  lemma {:induction false} CountPositive(rs: Records, k: nat)
    ensures CountOf(rs, k) > 0 <==> exists e :: e in rs && e.key == k
    ensures CountOf(rs, k) <= |rs|
  {
    if rs != [] {
      var n := |rs| - 1;
      CountPositive(rs[..n], k);
      assert rs == rs[..n] + [rs[n]];
    }
  }

  /** A slot holds its key's saturated count and one of its results, and calls the key inconsistent
      exactly when it was recorded with two results. */
  ghost predicate SlotSays(s: Slot, rs: Records) {
    s.occupied ==>
      && s.count == (if CountOf(rs, s.key) < 0xFFFF_FFFF then CountOf(rs, s.key) else 0xFFFF_FFFF)
      && Entry(s.key, s.first) in rs
      && (s.inconsistent <==> exists r :: Entry(s.key, r) in rs && r != s.first)
  }

  /** The table holds every recorded key, once. */
  ghost predicate Says(g: Shape, t: Table, rs: Records)
    requires Fits(g, t)
  {
    && Coherent(ViewOf(t.slots), g.hash, g.probes)
    && (forall j :: 0 <= j < |t.slots| ==> SlotSays(t.slots[j], rs))
    && (forall e :: e in rs ==> Some(e.key) in ViewOf(t.slots))
  }

  /** The same entries, each key as often. */
  ghost predicate Alike(a: Records, b: Records) {
    (forall k :: CountOf(a, k) == CountOf(b, k)) && (forall e :: e in a <==> e in b)
  }

  lemma SaysAlike(g: Shape, t: Table, a: Records, b: Records)
    requires Fits(g, t) && Says(g, t, a) && Alike(a, b)
    ensures Says(g, t, b)
  {
    forall j | 0 <= j < |t.slots| ensures SlotSays(t.slots[j], b) { assert SlotSays(t.slots[j], a); }
  }

  // ---- one slot is written -------------------------------------------------------------------

  lemma WriteView(g: Shape, t: Table, i: nat, s: Slot)
    requires Fits(g, t) && Coherent(ViewOf(t.slots), g.hash, g.probes) && s.occupied
    requires i < |t.slots| && Place(ViewOf(t.slots), s.key, g.hash, g.probes) == Some(i)
    ensures ViewOf(t.slots[i := s]) == ViewOf(t.slots)[i := Some(s.key)]
    ensures Coherent(ViewOf(t.slots[i := s]), g.hash, g.probes)
    ensures ViewOf(t.slots)[i] in {None, Some(s.key)}
  {
    PlaceKeepsCoherent(ViewOf(t.slots), s.key, g.hash, g.probes);
    assert ViewOf(t.slots[i := s]) == ViewOf(t.slots)[i := Some(s.key)];
  }

  /** Only the slot where a key belongs can hold it. */
  lemma OtherSlotOtherKey(g: Shape, t: Table, i: nat, j: nat, key: nat)
    requires Fits(g, t) && Coherent(ViewOf(t.slots), g.hash, g.probes)
    requires i < |t.slots| && j < |t.slots| && i != j && Place(ViewOf(t.slots), key, g.hash, g.probes) == Some(i)
    requires t.slots[j].occupied
    ensures t.slots[j].key != key
  {
    var v := ViewOf(t.slots);
    if t.slots[j].key == key {
      assert v[j] == Some(key) && v[j] in v;
      AbsentKey(v, key, g.hash, g.probes);
      OneSlotPerKey(v, g.hash, g.probes, i, j);
    }
  }

  lemma OtherKeySays(s: Slot, rs: Records, more: Records, key: nat)
    requires SlotSays(s, rs) && (s.occupied ==> s.key != key) && (forall e :: e in more ==> e.key == key)
    ensures SlotSays(s, rs + more)
  {
    SumAppend(rs, more, OneOf(s.key));
    CountPositive(more, s.key);
  }

  /** Writing the slot where a key belongs, when the new slot says what the longer records say of it. */
  lemma SlotWriteSays(g: Shape, t: Table, rs: Records, more: Records, i: nat, s: Slot)
    requires Fits(g, t) && Says(g, t, rs)
    requires i < |t.slots| && Place(ViewOf(t.slots), s.key, g.hash, g.probes) == Some(i)
    requires s.occupied && SlotSays(s, rs + more) && forall e :: e in more ==> e.key == s.key
    ensures Says(g, t.(slots := t.slots[i := s]), rs + more)
  {
    hide Place, Probing.Coherent, SlotSays;
    var slots' := t.slots[i := s];
    WriteView(g, t, i, s);
    forall j | 0 <= j < |slots'| ensures SlotSays(slots'[j], rs + more) {
      if j != i {
        assert SlotSays(t.slots[j], rs);
        if t.slots[j].occupied { OtherSlotOtherKey(g, t, i, j, s.key); }
        OtherKeySays(t.slots[j], rs, more, s.key);
      }
    }
    var v, v' := ViewOf(t.slots), ViewOf(slots');
    forall e | e in rs + more ensures Some(e.key) in v' {
      if e.key == s.key { assert v'[i] == Some(e.key); } else {
        assert Some(e.key) in v;
        var j :| 0 <= j < |v| && v[j] == Some(e.key);
        assert v'[j] == Some(e.key);
      }
    }
  }

  /** Where a key belongs is free exactly when the key was never recorded. */
  lemma PlacedSlot(g: Shape, t: Table, rs: Records, key: nat, i: nat)
    requires Fits(g, t) && Says(g, t, rs) && i < |t.slots| && Place(ViewOf(t.slots), key, g.hash, g.probes) == Some(i)
    ensures SlotSays(t.slots[i], rs)
    ensures if t.slots[i].occupied then t.slots[i].key == key else forall e :: e in rs ==> e.key != key
  {
    var v := ViewOf(t.slots);
    AbsentKey(v, key, g.hash, g.probes);
    assert v[i] in {None, Some(key)};
  }

  /** A key that is in the table never overflows: what overflows is new and found no free slot. */
  lemma OnlyNewKeysOverflow(g: Shape, t: Table, key: nat, result: nat)
    requires Fits(g, t) && Coherent(ViewOf(t.slots), g.hash, g.probes)
    ensures AfterRecord(g, t, key, result).overflow == t.overflow || Some(Normal(key)) !in ViewOf(t.slots)
    ensures AfterRecord(g, t, key, result).overflow in {t.overflow, t.overflow + 1}
    ensures Some(Normal(key)) in ViewOf(AfterRecord(g, t, key, result).slots)
            || AfterRecord(g, t, key, result).slots == t.slots
  {
    hide Place, Probing.Coherent, Find;
    var v, p := ViewOf(t.slots), Place(ViewOf(t.slots), Normal(key), g.hash, g.probes);
    AbsentKey(v, Normal(key), g.hash, g.probes);
    if p.Some? {
      assert v[p.value] in {None, Some(Normal(key))};
      assert ViewOf(AfterRecord(g, t, key, result).slots)[p.value] == Some(Normal(key));
    }
  }

  lemma CountedSays(d: Slot, rs: Records, key: nat, result: nat)
    requires SlotSays(d, rs) && if d.occupied then d.key == key else forall e :: e in rs ==> e.key != key
    ensures SlotSays(Counted(d, key, result), rs + [Entry(key, result)])
  {
    var more := rs + [Entry(key, result)];
    var s := Counted(d, key, result);
    SumAppend(rs, [Entry(key, result)], OneOf(key));
    assert CountOf([Entry(key, result)], key) == 1;
    CountPositive(rs, key);
    assert forall r :: Entry(key, r) in more <==> Entry(key, r) in rs || r == result;
    if s.inconsistent {
      if d.inconsistent {
        var r :| Entry(key, r) in rs && r != d.first;
        assert Entry(key, r) in more;
      } else {
        assert Entry(key, result) in more;
      }
    }
  }

  lemma RecordSays(g: Shape, t: Table, rs: Records, key: nat, result: nat)
    requires Fits(g, t) && Says(g, t, rs) && AfterRecord(g, t, key, result).overflow == t.overflow
    ensures Says(g, AfterRecord(g, t, key, result), rs + [Entry(Normal(key), result)])
  {
    hide Place, Probing.Coherent, Says, SlotSays;
    var k := Normal(key);
    var i := Place(ViewOf(t.slots), k, g.hash, g.probes).value;
    PlacedSlot(g, t, rs, k, i);
    CountedSays(t.slots[i], rs, k, result);
    SlotWriteSays(g, t, rs, [Entry(k, result)], i, Counted(t.slots[i], k, result));
  }

  // ---- merging whole tables ------------------------------------------------------------------

  /** The records of one key. */
  function OfKey(rs: Records, k: nat): (r: Records)
    ensures forall e :: e in r <==> e in rs && e.key == k
  {
    if rs == [] then []
    else
      var n := |rs| - 1;
      assert rs == rs[..n] + [rs[n]];
      OfKey(rs[..n], k) + if rs[n].key == k then [rs[n]] else []
  }

  lemma {:induction false} CountOfKey(rs: Records, k: nat, other: nat)
    ensures CountOf(OfKey(rs, k), other) == if other == k then CountOf(rs, k) else 0
  {
    if rs != [] {
      var n := |rs| - 1;
      CountOfKey(rs[..n], k, other);
      SumAppend(OfKey(rs[..n], k), if rs[n].key == k then [rs[n]] else [], OneOf(other));
      assert CountOf([rs[n]], other) == if rs[n].key == other then 1 else 0;
    }
  }

  lemma FoldedSays(d: Slot, s: Slot, rs: Records, other: Records)
    requires SlotSays(d, rs) && s.occupied && SlotSays(s, other)
    requires if d.occupied then d.key == s.key else forall e :: e in rs ==> e.key != s.key
    ensures SlotSays(Folded(d, s), rs + OfKey(other, s.key))
  {
    var m, k := Folded(d, s), s.key;
    var more := rs + OfKey(other, k);
    SumAppend(rs, OfKey(other, k), OneOf(k));
    CountOfKey(other, k, k);
    CountPositive(rs, k);
    assert forall r :: Entry(k, r) in more <==> Entry(k, r) in rs || Entry(k, r) in other;
    if m.inconsistent {
      if d.occupied && d.inconsistent {
        var r :| Entry(k, r) in rs && r != d.first;
        assert Entry(k, r) in more;
      } else if s.inconsistent && (!d.occupied || s.first == d.first) {
        var r :| Entry(k, r) in other && r != s.first;
        assert Entry(k, r) in more;
      } else {
        assert Entry(k, s.first) in more;
      }
    }
  }

  lemma MergeSlotSays(g: Shape, t: Table, rs: Records, other: Records, s: Slot)
    requires Fits(g, t) && Says(g, t, rs) && s.occupied && SlotSays(s, other)
    requires AfterMergeSlot(g, t, s).overflow == t.overflow
    ensures Says(g, AfterMergeSlot(g, t, s), rs + OfKey(other, s.key))
  {
    hide Place, Probing.Coherent, Says, SlotSays;
    var i := Place(ViewOf(t.slots), s.key, g.hash, g.probes).value;
    PlacedSlot(g, t, rs, s.key, i);
    FoldedSays(t.slots[i], s, rs, other);
    SlotWriteSays(g, t, rs, OfKey(other, s.key), i, Folded(t.slots[i], s));
  }

  /** The records of the keys of the first n slots, slot by slot. */
  function Share(rs: Records, slots: seq<Slot>): Records {
    if slots == [] then []
    else
      var s := slots[|slots| - 1];
      Share(rs, slots[..|slots| - 1]) + if s.occupied then OfKey(rs, s.key) else []
  }

  lemma OverflowOnlyGrows(g: Shape, t: Table, slots: seq<Slot>)
    requires Fits(g, t)
    ensures MergeSlots(g, t, slots).overflow >= t.overflow
  {
    if slots != [] { OverflowOnlyGrows(g, t, slots[..|slots| - 1]); }
  }

  lemma {:induction false} MergeSlotsSay(g: Shape, t: Table, rs: Records, slots: seq<Slot>, other: Records)
    requires Fits(g, t) && Says(g, t, rs)
    requires forall j :: 0 <= j < |slots| ==> SlotSays(slots[j], other)
    requires MergeSlots(g, t, slots).overflow == t.overflow
    ensures Says(g, MergeSlots(g, t, slots), rs + Share(other, slots))
  {
    hide Says, SlotSays, Fits;
    if slots == [] {
      assert rs + [] == rs;
    } else {
      var before, s := slots[..|slots| - 1], slots[|slots| - 1];
      OverflowOnlyGrows(g, t, before);
      MergeSlotsSay(g, t, rs, before, other);
      if s.occupied {
        MergeSlotSays(g, MergeSlots(g, t, before), rs + Share(other, before), other, s);
        assert rs + Share(other, before) + OfKey(other, s.key) == rs + Share(other, slots);
      } else {
        assert rs + Share(other, slots) == rs + Share(other, before);
      }
    }
  }

  ghost predicate KeyAmong(slots: seq<Slot>, k: nat) {
    exists j :: 0 <= j < |slots| && slots[j].occupied && slots[j].key == k
  }

  ghost predicate DistinctKeys(slots: seq<Slot>) {
    forall i, j :: 0 <= i < j < |slots| && slots[i].occupied && slots[j].occupied ==> slots[i].key != slots[j].key
  }

  lemma {:induction false} ShareOf(rs: Records, slots: seq<Slot>, k: nat)
    requires DistinctKeys(slots)
    ensures CountOf(Share(rs, slots), k) == if KeyAmong(slots, k) then CountOf(rs, k) else 0
    ensures forall r :: Entry(k, r) in Share(rs, slots) <==> KeyAmong(slots, k) && Entry(k, r) in rs
  {
    if slots != [] {
      var before, s := slots[..|slots| - 1], slots[|slots| - 1];
      ShareOf(rs, before, k);
      assert KeyAmong(slots, k) <==> KeyAmong(before, k) || (s.occupied && s.key == k) by {
        if KeyAmong(before, k) {
          var j :| 0 <= j < |before| && before[j].occupied && before[j].key == k;
          assert slots[j].occupied && slots[j].key == k;
        }
      }
      if s.occupied {
        SumAppend(Share(rs, before), OfKey(rs, s.key), OneOf(k));
        CountOfKey(rs, s.key, k);
      } else {
        assert Share(rs, slots) == Share(rs, before);
      }
    }
  }

  lemma TableKeys(g: Shape, t: Table, rs: Records)
    requires Fits(g, t) && Says(g, t, rs)
    ensures DistinctKeys(t.slots)
    ensures forall e :: e in rs ==> KeyAmong(t.slots, e.key)
    ensures forall j :: 0 <= j < |t.slots| ==> SlotSays(t.slots[j], rs)
  {
    var v := ViewOf(t.slots);
    assert forall i, j :: 0 <= i < j < |v| && v[i].Some? && v[j].Some? ==> v[i] != v[j];
    forall e | e in rs ensures KeyAmong(t.slots, e.key) {
      var j :| 0 <= j < |v| && v[j] == Some(e.key);
      assert t.slots[j].occupied && t.slots[j].key == e.key;
    }
  }

  /** A merge that drops nothing says what both tables said. */
  lemma MergeSays(g: Shape, t: Table, rs: Records, gOther: Shape, o: Table, other: Records)
    requires Fits(g, t) && Says(g, t, rs) && Fits(gOther, o) && Says(gOther, o, other)
    requires Merge(g, t, o).overflow == 0
    ensures Says(g, Merge(g, t, o), rs + other)
  {
    hide Says, SlotSays, Fits, KeyAmong, MergeSlots, DistinctKeys;
    OverflowOnlyGrows(g, t, o.slots);
    TableKeys(gOther, o, other);
    MergeSlotsSay(g, t, rs, o.slots, other);
    var all, shared := rs + other, rs + Share(other, o.slots);
    forall k ensures CountOf(shared, k) == CountOf(all, k) {
      ShareOf(other, o.slots, k);
      SumAppend(rs, other, OneOf(k));
      SumAppend(rs, Share(other, o.slots), OneOf(k));
      CountPositive(other, k);
    }
    forall e ensures e in shared <==> e in all { ShareOf(other, o.slots, e.key); }
    var m := MergeSlots(g, t, o.slots);
    SaysAlike(g, m, shared, all);
    SaysSlotsOnly(g, m, Merge(g, t, o), all);
  }

  lemma SaysSlotsOnly(g: Shape, t: Table, t': Table, rs: Records)
    requires Fits(g, t) && Says(g, t, rs) && t'.slots == t.slots
    ensures Fits(g, t') && Says(g, t', rs)
  {
  }

  // ---- histories -----------------------------------------------------------------------------

  /** How a table came about: records and merges of other tables, in any order and nesting. */
  datatype History = Fresh | Recorded(before: History, key: nat, result: nat) | Merged(before: History, other: History)

  function TableOf(g: Shape, h: History): (t: Table)
    requires g.Ok()
    ensures Fits(g, t)
  {
    match h
    case Fresh => Empty(g)
    case Recorded(before, key, result) => AfterRecord(g, TableOf(g, before), key, result)
    case Merged(before, other) => Merge(g, TableOf(g, before), TableOf(g, other))
  }

  /** Every record behind the table; key 0 is recorded as the all-ones key. */
  function RecordsOf(h: History): Records {
    match h
    case Fresh => []
    case Recorded(before, key, result) => 
      RecordsOf(before) + [Entry(if key == 0 then 0xFFFF_FFFF_FFFF_FFFF else key, result)]
    case Merged(before, other) => RecordsOf(before) + RecordsOf(other)
  }

  lemma {:induction false} OverflowInherited(g: Shape, h: History)
    requires g.Ok() && TableOf(g, h).overflow == 0
    ensures h.Recorded? ==> TableOf(g, h.before).overflow == 0
    ensures h.Merged? ==> TableOf(g, h.before).overflow == 0 && TableOf(g, h.other).overflow == 0
  {
    if h.Merged? { OverflowOnlyGrows(g, TableOf(g, h.before), TableOf(g, h.other).slots); }
  }

  /** As long as the overflow counter is zero, the table is exact: it does not matter which thread
      recorded what, nor in which order the tables were merged. */
  lemma {:induction false} NoOverflowIsExact(g: Shape, h: History)
    requires g.Ok() && TableOf(g, h).overflow == 0
    ensures Says(g, TableOf(g, h), RecordsOf(h))
  {
    hide Says, AfterRecord, Merge, Fits;
    OverflowInherited(g, h);
    match h
    case Fresh => EmptySays(g);
    case Recorded(before, key, result) =>
      NoOverflowIsExact(g, before);
      RecordSays(g, TableOf(g, before), RecordsOf(before), key, result);
    case Merged(before, other) =>
      NoOverflowIsExact(g, before);
      NoOverflowIsExact(g, other);
      MergeSays(g, TableOf(g, before), RecordsOf(before), g, TableOf(g, other), RecordsOf(other));
  }

  lemma EmptySays(g: Shape)
    requires g.Ok()
    ensures Fits(g, Empty(g)) && Says(g, Empty(g), [])
  {
  }

  // ---- conservation --------------------------------------------------------------------------

  /** What a slot counts, or counts of one key. */
  function Weight(s: Slot, of: Option<nat>): nat {
    if s.occupied && of in {None, Some(s.key)} then s.count else 0
  }

  function Weigh(of: Option<nat>): Slot -> nat {
    (s: Slot) => Weight(s, of)
  }

  function Total(slots: seq<Slot>, of: Option<nat>): nat {
    Sum(slots, Weigh(of))
  }

  /** What the table accounts for: its counts, the overflow, and what was lost with dropped slots. */
  function Accounted(t: Table): nat {
    Total(t.slots, None) + t.overflow + t.lost
  }

  /** Slots in use count at least one record. */
  predicate Counts(t: Table) {
    forall j :: 0 <= j < |t.slots| && t.slots[j].occupied ==> t.slots[j].count > 0
  }

  lemma RecordAccounts(g: Shape, t: Table, key: nat, result: nat)
    requires Fits(g, t) && Counts(t) && Total(t.slots, Some(Normal(key))) < MAX_COUNT
    ensures Accounted(AfterRecord(g, t, key, result)) == Accounted(t) + 1 && Counts(AfterRecord(g, t, key, result))
    ensures AfterRecord(g, t, key, result).lost == t.lost
  {
    hide Sum, Place;
    var p := Place(ViewOf(t.slots), Normal(key), g.hash, g.probes);
    if p.Some? {
      assert ViewOf(t.slots)[p.value] in {None, Some(Normal(key))};
      SumUpdate(t.slots, p.value, Counted(t.slots[p.value], Normal(key), result), Weigh(None));
      SumUpdate(t.slots, p.value, Counted(t.slots[p.value], Normal(key), result), Weigh(Some(Normal(key))));
    }
  }

  lemma RecordTotals(g: Shape, t: Table, key: nat, result: nat, k: nat)
    requires Fits(g, t)
    ensures Total(AfterRecord(g, t, key, result).slots, Some(k)) <=
            Total(t.slots, Some(k)) + if Normal(key) == k then 1 else 0
  {
    hide Sum, Place;
    var p := Place(ViewOf(t.slots), Normal(key), g.hash, g.probes);
    if p.Some? {
      assert ViewOf(t.slots)[p.value] in {None, Some(Normal(key))};
      SumUpdate(t.slots, p.value, Counted(t.slots[p.value], Normal(key), result), Weigh(Some(k)));
    }
  }

  lemma MergeSlotAccounts(g: Shape, t: Table, s: Slot)
    requires Fits(g, t) && Counts(t) && s.occupied && s.count > 0 && Total(t.slots, Some(s.key)) + s.count <= MAX_COUNT
    ensures Accounted(AfterMergeSlot(g, t, s)) == Accounted(t) + s.count && Counts(AfterMergeSlot(g, t, s))
  {
    hide Sum, Place;
    var p := Place(ViewOf(t.slots), s.key, g.hash, g.probes);
    if p.Some? {
      assert ViewOf(t.slots)[p.value] in {None, Some(s.key)};
      SumUpdate(t.slots, p.value, Folded(t.slots[p.value], s), Weigh(None));
      SumUpdate(t.slots, p.value, Folded(t.slots[p.value], s), Weigh(Some(s.key)));
    }
  }

  lemma MergeSlotTotals(g: Shape, t: Table, s: Slot, k: nat)
    requires Fits(g, t) && s.occupied
    ensures Total(AfterMergeSlot(g, t, s).slots, Some(k)) <= Total(t.slots, Some(k)) + Weight(s, Some(k))
  {
    hide Sum, Place;
    var p := Place(ViewOf(t.slots), s.key, g.hash, g.probes);
    if p.Some? {
      assert ViewOf(t.slots)[p.value] in {None, Some(s.key)};
      SumUpdate(t.slots, p.value, Folded(t.slots[p.value], s), Weigh(Some(k)));
    }
  }

  lemma {:induction false} MergeTotals(g: Shape, t: Table, slots: seq<Slot>, k: nat)
    requires Fits(g, t)
    ensures Total(MergeSlots(g, t, slots).slots, Some(k)) <= Total(t.slots, Some(k)) + Total(slots, Some(k))
  {
    hide Fits, AfterMergeSlot, Weight;
    if slots != [] {
      var before, s := slots[..|slots| - 1], slots[|slots| - 1];
      MergeTotals(g, t, before, k);
      if s.occupied { MergeSlotTotals(g, MergeSlots(g, t, before), s, k); }
    }
  }

  /** No key is ever counted more often than it was recorded. */
  lemma {:induction false} NeverOvercounts(g: Shape, h: History, k: nat)
    requires g.Ok()
    ensures Total(TableOf(g, h).slots, Some(k)) <= CountOf(RecordsOf(h), k)
  {
    hide AfterRecord, MergeSlots, Fits, Sum;
    match h
    case Fresh => NoTotal(Empty(g).slots, Some(k));
    case Recorded(before, key, result) =>
      NeverOvercounts(g, before, k);
      RecordTotals(g, TableOf(g, before), key, result, k);
      SumAppend(RecordsOf(before), [Entry(Normal(key), result)], OneOf(k));
      SumOne(Entry(Normal(key), result), OneOf(k));
    case Merged(before, other) =>
      NeverOvercounts(g, before, k);
      NeverOvercounts(g, other, k);
      MergeTotals(g, TableOf(g, before), TableOf(g, other).slots, k);
      SumAppend(RecordsOf(before), RecordsOf(other), OneOf(k));
  }

  lemma {:induction false} MergeSlotsAccount(g: Shape, t: Table, slots: seq<Slot>)
    requires Fits(g, t) && Counts(t) && forall k :: Total(t.slots, Some(k)) + Total(slots, Some(k)) <= MAX_COUNT
    requires forall j :: 0 <= j < |slots| && slots[j].occupied ==> slots[j].count > 0
    ensures var t' := MergeSlots(g, t, slots);
            Accounted(t') == Accounted(t) + Total(slots, None) && Counts(t')
  {
    hide Fits, AfterMergeSlot, Accounted;
    if slots != [] {
      var before, s := slots[..|slots| - 1], slots[|slots| - 1];
      assert forall k :: Total(slots, Some(k)) == Total(before, Some(k)) + Weight(s, Some(k));
      MergeSlotsAccount(g, t, before);
      if s.occupied {
        MergeTotals(g, t, before, s.key);
        assert Total(t.slots, Some(s.key)) + Total(slots, Some(s.key)) <= MAX_COUNT;
        MergeSlotAccounts(g, MergeSlots(g, t, before), s);
      }
    }
  }

  /** As long as no key's count can saturate, nothing goes unaccounted: the total of the counts, the
      overflow and the records lost with dropped slots add up to the records made. */
  lemma {:induction false} RecordsAreConserved(g: Shape, h: History)
    requires g.Ok() && forall k :: CountOf(RecordsOf(h), k) <= MAX_COUNT
    ensures Accounted(TableOf(g, h)) == |RecordsOf(h)| && Counts(TableOf(g, h))
  {
    hide AfterRecord, MergeSlots, Fits, Sum;
    match h
    case Fresh => EmptyAccounts(g);
    case Recorded(before, key, result) =>
      var e := Entry(Normal(key), result);
      forall k ensures CountOf(RecordsOf(h), k) == CountOf(RecordsOf(before), k) + CountOf([e], k) {
        SumAppend(RecordsOf(before), [e], OneOf(k));
      }
      SumOne(e, OneOf(e.key));
      RecordsAreConserved(g, before);
      NeverOvercounts(g, before, e.key);
      assert CountOf(RecordsOf(h), e.key) <= MAX_COUNT;
      RecordAccounts(g, TableOf(g, before), key, result);
    case Merged(before, other) =>
      forall k ensures CountOf(RecordsOf(h), k) == CountOf(RecordsOf(before), k) + CountOf(RecordsOf(other), k) {
        SumAppend(RecordsOf(before), RecordsOf(other), OneOf(k));
      }
      RecordsAreConserved(g, before);
      RecordsAreConserved(g, other);
      var t, o := TableOf(g, before), TableOf(g, other);
      forall k ensures Total(t.slots, Some(k)) + Total(o.slots, Some(k)) <= MAX_COUNT {
        NeverOvercounts(g, before, k);
        NeverOvercounts(g, other, k);
        assert CountOf(RecordsOf(h), k) <= MAX_COUNT;
      }
      MergeSlotsAccount(g, t, o.slots);
  }

  lemma EmptyAccounts(g: Shape)
    requires g.Ok()
    ensures Accounted(Empty(g)) == 0 && Counts(Empty(g))
  {
    NoTotal(Empty(g).slots, None);
  }

  lemma NoTotal(slots: seq<Slot>, of: Option<nat>)
    requires forall s :: s in slots ==> !s.occupied
    ensures Total(slots, of) == 0
  {
    SumZero(slots, Weigh(of));
  }

  predicate RecordsOnly(h: History) {
    h.Fresh? || (h.Recorded? && RecordsOnly(h.before))
  }

  lemma {:induction false} RecordsOnlyLoseNothing(g: Shape, h: History)
    requires g.Ok() && RecordsOnly(h)
    ensures TableOf(g, h).lost == 0
  {
    if h.Recorded? { RecordsOnlyLoseNothing(g, h.before); }
  }

  // ---- the tally -----------------------------------------------------------------------------

  datatype Tally = Tally(total: nat, distinct: nat, repeated: nat, inconsistent: nat, overflow: nat)

  datatype Kind = InUse | Repeated | Inconsistent

  predicate Is(kind: Kind, s: Slot) {
    s.occupied && (kind.Repeated? ==> s.count > 1) && (kind.Inconsistent? ==> s.inconsistent)
  }

  function OneIf(kind: Kind): Slot -> nat {
    (s: Slot) => if Is(kind, s) then 1 else 0
  }

  function CountKind(slots: seq<Slot>, kind: Kind): nat {
    Sum(slots, OneIf(kind))
  }

  function TallyOf(t: Table): Tally {
    Tally(Total(t.slots, None), CountKind(t.slots, InUse), CountKind(t.slots, Repeated),
          CountKind(t.slots, Inconsistent), t.overflow)
  }

  ghost function KeysOf(slots: seq<Slot>, kind: Kind): set<nat> {
    set j | 0 <= j < |slots| && Is(kind, slots[j]) :: slots[j].key
  }

  lemma {:induction false} CountKindIsKeys(slots: seq<Slot>, kind: Kind)
    requires DistinctKeys(slots)
    ensures CountKind(slots, kind) == |KeysOf(slots, kind)|
  {
    hide KeysOf;
    if slots == [] {
      KeysOfNone(slots, kind);
    } else {
      var before, s := slots[..|slots| - 1], slots[|slots| - 1];
      CountKindIsKeys(before, kind);
      KeysOfStep(slots, kind);
      KeyIsNew(slots, kind);
    }
  }

  lemma KeysOfNone(slots: seq<Slot>, kind: Kind)
    requires slots == []
    ensures KeysOf(slots, kind) == {}
  {
  }

  lemma KeysOfStep(slots: seq<Slot>, kind: Kind)
    requires slots != []
    ensures var before, s := slots[..|slots| - 1], slots[|slots| - 1];
            KeysOf(slots, kind) == KeysOf(before, kind) + if Is(kind, s) then {s.key} else {}
  {
    var before, s := slots[..|slots| - 1], slots[|slots| - 1];
    forall k | k in KeysOf(before, kind) ensures k in KeysOf(slots, kind) {
      var j :| 0 <= j < |before| && Is(kind, before[j]) && before[j].key == k;
      assert Is(kind, slots[j]) && slots[j].key == k;
    }
  }

  lemma KeyIsNew(slots: seq<Slot>, kind: Kind)
    requires slots != [] && DistinctKeys(slots)
    ensures Is(kind, slots[|slots| - 1]) ==> slots[|slots| - 1].key !in KeysOf(slots[..|slots| - 1], kind)
  {
  }

  /** The same of the records: keys recorded at all, more than once, with two results. */
  ghost predicate KeyIs(kind: Kind, rs: Records, k: nat) {
    match kind
    case InUse => exists r :: Entry(k, r) in rs
    case Repeated => CountOf(rs, k) > 1
    case Inconsistent => exists q, r :: Entry(k, q) in rs && Entry(k, r) in rs && q != r
  }

  ghost function KeysRecorded(rs: Records, kind: Kind): set<nat> {
    set e | e in rs && KeyIs(kind, rs, e.key) :: e.key
  }

  lemma SlotKind(s: Slot, rs: Records, kind: Kind)
    requires s.occupied && SlotSays(s, rs)
    ensures Is(kind, s) <==> KeyIs(kind, rs, s.key)
  {
    hide CountOf;
    if kind.Inconsistent? && s.inconsistent {
      var r :| Entry(s.key, r) in rs && r != s.first;
      assert KeyIs(kind, rs, s.key);
    }
  }

  /** The keys of a kind are those of the records. */
  lemma TableKindKeys(g: Shape, t: Table, rs: Records, kind: Kind)
    requires Fits(g, t) && Says(g, t, rs)
    ensures KeysOf(t.slots, kind) == KeysRecorded(rs, kind)
  {
    hide Says, Fits, KeyIs, Is, CountOf;
    TableKeys(g, t, rs);
    forall k | k in KeysOf(t.slots, kind) ensures k in KeysRecorded(rs, kind) {
      var j :| 0 <= j < |t.slots| && Is(kind, t.slots[j]) && t.slots[j].key == k;
      OfKindInUse(t.slots[j], kind);
      SlotKind(t.slots[j], rs, kind);
      assert Entry(k, t.slots[j].first) in rs;
    }
    forall k | k in KeysRecorded(rs, kind) ensures k in KeysOf(t.slots, kind) {
      var e :| e in rs && KeyIs(kind, rs, e.key) && e.key == k;
      var j :| 0 <= j < |t.slots| && t.slots[j].occupied && t.slots[j].key == k;
      SlotKind(t.slots[j], rs, kind);
    }
  }

  lemma OfKindInUse(s: Slot, kind: Kind)
    requires Is(kind, s)
    ensures s.occupied
  {
  }

  lemma {:induction false} NoOverflowNoLoss(g: Shape, h: History)
    requires g.Ok() && TableOf(g, h).overflow == 0
    ensures TableOf(g, h).lost == 0
  {
    hide Fits;
    OverflowInherited(g, h);
    match h
    case Fresh =>
    case Recorded(before, _, _) => NoOverflowNoLoss(g, before);
    case Merged(before, other) =>
      NoOverflowNoLoss(g, before);
      NoOverflowNoLoss(g, other);
      MergeLosesByOverflow(g, TableOf(g, before), TableOf(g, other).slots);
  }

  lemma {:induction false} MergeLosesByOverflow(g: Shape, t: Table, slots: seq<Slot>)
    requires Fits(g, t) && MergeSlots(g, t, slots).overflow == t.overflow
    ensures MergeSlots(g, t, slots).lost == t.lost
  {
    if slots != [] {
      OverflowOnlyGrows(g, t, slots[..|slots| - 1]);
      MergeLosesByOverflow(g, t, slots[..|slots| - 1]);
    }
  }

  /** What a tally means: without overflow and saturation it gives the number of records, of keys, of keys
      recorded more than once and of keys seen with two results. */
  lemma TallyMeans(g: Shape, h: History)
    requires g.Ok() && TableOf(g, h).overflow == 0 && forall k :: CountOf(RecordsOf(h), k) <= MAX_COUNT
    ensures var rs := RecordsOf(h);
            TallyOf(TableOf(g, h)) ==
              Tally(|rs|, |KeysRecorded(rs, InUse)|, |KeysRecorded(rs, Repeated)|, |KeysRecorded(rs, Inconsistent)|, 0)
  {
    hide Says, Fits, KeysOf, DistinctKeys, CountKind, CountOf, KeysRecorded;
    var t, rs := TableOf(g, h), RecordsOf(h);
    NoOverflowIsExact(g, h);
    NoOverflowNoLoss(g, h);
    RecordsAreConserved(g, h);
    TableKeys(g, t, rs);
    forall kind ensures CountKind(t.slots, kind) == |KeysRecorded(rs, kind)| {
      CountKindIsKeys(t.slots, kind);
      TableKindKeys(g, t, rs, kind);
    }
  }

  lemma AlikeKeys(a: Records, b: Records, kind: Kind)
    requires Alike(a, b)
    ensures KeysRecorded(a, kind) == KeysRecorded(b, kind)
  {
    hide CountOf;
    forall k ensures KeyIs(kind, a, k) <==> KeyIs(kind, b, k) {}
  }

  /** Merging is a homomorphism: however the same records were spread over tables of whatever shape, and
      in whatever order the tables were merged, without overflow the tally is the same. */
  lemma SameRecordsSameTally(g: Shape, h: History, g': Shape, h': History)
    requires g.Ok() && g'.Ok()
    requires TableOf(g, h).overflow == 0 && TableOf(g', h').overflow == 0
    requires multiset(RecordsOf(h)) == multiset(RecordsOf(h')) && forall k :: CountOf(RecordsOf(h), k) <= MAX_COUNT
    ensures TallyOf(TableOf(g, h)) == TallyOf(TableOf(g', h'))
  {
    hide CountOf, KeysRecorded, TallyOf, TableOf;
    var a, b := RecordsOf(h), RecordsOf(h');
    PermutedAlike(a, b);
    assert |a| == |multiset(a)| && |b| == |multiset(b)|;
    forall kind ensures KeysRecorded(a, kind) == KeysRecorded(b, kind) { AlikeKeys(a, b, kind); }
    TallyMeans(g, h);
    TallyMeans(g', h');
  }

  lemma PermutedAlike(a: Records, b: Records)
    requires multiset(a) == multiset(b)
    ensures Alike(a, b)
  {
    forall k ensures CountOf(a, k) == CountOf(b, k) { PermutedCount(a, b, k); }
    forall e ensures e in a <==> e in b { assert e in a <==> e in multiset(a); }
  }

  lemma TakenOut(rs: Records, i: nat, k: nat)
    requires i < |rs|
    ensures var left := rs[..i] + rs[i + 1..];
            && multiset(left) == multiset(rs) - multiset{rs[i]}
            && CountOf(rs, k) == CountOf(left, k) + if rs[i].key == k then 1 else 0
  {
    var l, r := rs[..i], rs[i + 1..];
    assert rs == l + [rs[i]] + r;
    assert multiset(rs) == multiset(l + r) + multiset{rs[i]};
    SumAppend(l, r, OneOf(k));
    SumAppend(l, [rs[i]], OneOf(k));
    SumAppend(l + [rs[i]], r, OneOf(k));
    assert CountOf([rs[i]], k) == if rs[i].key == k then 1 else 0;
  }

  lemma {:induction false} PermutedCount(a: Records, b: Records, k: nat)
    requires multiset(a) == multiset(b)
    ensures CountOf(a, k) == CountOf(b, k)
    decreases |a|
  {
    hide CountOf;
    if a == [] {
      assert |multiset(b)| == 0;
    } else {
      assert a[0] in multiset(b);
      var i :| 0 <= i < |b| && b[i] == a[0];
      TakenOut(a, 0, k);
      TakenOut(b, i, k);
      PermutedCount(a[..0] + a[1..], b[..i] + b[i + 1..], k);
    }
  }

  // ---- the table object ----------------------------------------------------------------------

  class RepeatTable {
    const shape: Shape
    const slots: array<Slot>
    var overflow: nat
    ghost var lost: nat          // see Table

    ghost predicate Valid() {
      shape.Ok() && slots.Length == shape.capacity
    }

    constructor (shape: Shape)
      requires shape.Ok()
      ensures Valid() && fresh(slots) && this.shape == shape
      ensures Value() == Empty(shape)
    {
      this.shape := shape;
      slots := new Slot[shape.capacity](_ => FREE);
      overflow, lost := 0, 0;
    }

    ghost function Value(): Table
      reads this, slots
    {
      Table(slots[..], overflow, lost)
    }

    method Record(key: nat, result: nat)
      requires Valid()
      modifies this, slots
      ensures Value() == AfterRecord(shape, old(Value()), key, result)
    {
      hide Place, Home;
      var k := Normal(key);
      ghost var v := ViewOf(slots[..]);
      PlaceStart(v, k, shape.hash, shape.probes);
      var i: nat := Home(shape.hash(k), slots.Length);
      var p: nat := 0;
      while p < shape.probes
        invariant i < slots.Length && p <= shape.probes
        invariant slots[..] == old(slots[..]) && unchanged(this)
        invariant Place(v, k, shape.hash, shape.probes) == PlaceFrom(v, k, i, shape.probes - p)
      {
        var s := slots[i];
        if !s.occupied {
          slots[i] := Slot(k, 1, result, false, true);
          return;
        }
        if s.key == k {
          if s.count != MAX_COUNT { s := s.(count := s.count + 1); }
          if result != s.first { s := s.(inconsistent := true); }
          slots[i] := s;
          return;
        }
        i, p := Next(i, slots.Length), p + 1;
      }
      overflow := overflow + 1;
    }

    method MergeSlot(s: Slot)
      requires Valid()
      modifies this, slots
      ensures Value() == AfterMergeSlot(shape, old(Value()), s)
    {
      hide Place, Home;
      ghost var v := ViewOf(slots[..]);
      PlaceStart(v, s.key, shape.hash, shape.probes);
      var i: nat := Home(shape.hash(s.key), slots.Length);
      var p: nat := 0;
      while p < shape.probes
        invariant i < slots.Length && p <= shape.probes
        invariant slots[..] == old(slots[..]) && unchanged(this)
        invariant Place(v, s.key, shape.hash, shape.probes) == PlaceFrom(v, s.key, i, shape.probes - p)
      {
        var d := slots[i];
        if !d.occupied {
          slots[i] := s;
          return;
        }
        if d.key == s.key {
          var c := d.count + s.count;
          d := d.(count := if c > MAX_COUNT then MAX_COUNT else c);
          if s.inconsistent || s.first != d.first { d := d.(inconsistent := true); }
          slots[i] := d;
          return;
        }
        i, p := Next(i, slots.Length), p + 1;
      }
      overflow := overflow + 1;
      lost := lost + if s.count > 0 then s.count - 1 else 0;
    }

    method MergeFrom(other: RepeatTable)
      requires Valid() && other.Valid() && other != this && other.slots != slots
      modifies this, slots
      ensures Value() == Merge(shape, old(Value()), old(other.Value()))
    {
      ghost var o := other.slots[..];
      assert o[..0] == [];
      for j := 0 to other.slots.Length
        invariant other.slots[..] == o && unchanged(other)
        invariant Value() == MergeSlots(shape, old(Value()), o[..j])
      {
        assert o[..j + 1][..j] == o[..j];
        if other.slots[j].occupied { MergeSlot(other.slots[j]); }
      }
      assert o[..|o|] == o;
      overflow := overflow + other.overflow;
      lost := lost + other.lost;
    }

    method GetTally() returns (t: Tally)
      requires Valid()
      ensures t == TallyOf(Value())
    {
      var total, distinct, repeated, inconsistent := 0, 0, 0, 0;
      ghost var ss := slots[..];
      for j := 0 to slots.Length
        invariant total == Total(ss[..j], None) && distinct == CountKind(ss[..j], InUse)
        invariant repeated == CountKind(ss[..j], Repeated) && inconsistent == CountKind(ss[..j], Inconsistent)
      {
        var s := slots[j];
        assert ss[..j + 1][..j] == ss[..j];
        if !s.occupied { continue; }
        distinct, total := distinct + 1, total + s.count;
        if s.count > 1 { repeated := repeated + 1; }
        if s.inconsistent { inconsistent := inconsistent + 1; }
      }
      assert ss[..|ss|] == ss;
      t := Tally(total, distinct, repeated, inconsistent, overflow);
    }

    method Reset()
      requires Valid()
      modifies this, slots
      ensures Value() == Empty(shape)
    {
      forall j | 0 <= j < slots.Length { slots[j] := FREE; }
      overflow, lost := 0, 0;
    }
  }
}
