/** The fixed-size result cache of the tick plugin: an open-addressed table whose slots are tagged
    with the epoch they were written in.

    A slot is live for an epoch when it is occupied and carries that epoch as its tag. Lookup stops at
    the first slot that is not live; store takes the first slot that is not live or holds the key.
    The functions describe both on the sequence of slots, the class does them on an array. */
module EpochCache {
  import opened Wrappers
  import opened CacheLog
  import opened Probing

  const MAX_PROBE: nat := 32
  const NO_EPOCH: nat := 0xFFFF_FFFF

  datatype ContextKey = ContextKey(lo: nat, hi: nat)

  datatype Slot = Slot(key: ContextKey, epoch: nat, result: nat, occupied: bool)

  type Table = t: seq<Slot> | |t| > 0 witness [EMPTY]

  const EMPTY := Slot(ContextKey(0, 0), NO_EPOCH, 0, false)

  predicate Live(s: Slot, epoch: nat) {
    s.occupied && s.epoch == epoch
  }

  function LowWord(k: ContextKey): nat {
    k.lo
  }

  /** The table as one epoch sees it: a slot of any other epoch counts as empty. */
  function ViewOf(t: seq<Slot>, epoch: nat): (v: View<ContextKey>)
    ensures |v| == |t|
    ensures forall j :: 0 <= j < |t| ==> v[j] == if Live(t[j], epoch) then Some(t[j].key) else None
  {
    seq(|t|, j requires 0 <= j < |t| => if Live(t[j], epoch) then Some(t[j].key) else None)
  }

  /** The slot a lookup hits. */
  function FindSlot(t: Table, k: ContextKey, epoch: nat): (r: Option<nat>)
    ensures r.Some? ==> r.value < |t| && Live(t[r.value], epoch) && t[r.value].key == k
  {
    Probing.Find(ViewOf(t, epoch), k, LowWord, MAX_PROBE)
  }

  /** The slot a store writes, or None on overflow. */
  function PlaceSlot(t: Table, k: ContextKey, epoch: nat): (r: Option<nat>)
    ensures r.Some? ==> r.value < |t| && (Live(t[r.value], epoch) ==> t[r.value].key == k)
  {
    Probing.Place(ViewOf(t, epoch), k, LowWord, MAX_PROBE)
  }

  /** What a lookup returns. */
  function Lookup(t: Table, k: ContextKey, epoch: nat): Option<nat> {
    match FindSlot(t, k, epoch)
    case Some(i) => Some(t[i].result)
    case None => None
  }

  /** The table after a store; an overflowing store changes nothing. */
  function Store(t: Table, k: ContextKey, epoch: nat, result: nat): (t': Table)
    ensures |t'| == |t|
  {
    match PlaceSlot(t, k, epoch)
    case Some(i) => t[i := Slot(k, epoch, result, true)]
    case None => t
  }

  // ---- one epoch is a map --------------------------------------------------------------------

  /** Every entry of the epoch is the one a lookup of its key finds, so no key has two live slots. */
  ghost predicate CoherentIn(t: Table, epoch: nat) {
    Probing.Coherent(ViewOf(t, epoch), LowWord, MAX_PROBE)
  }

  /** In its own epoch the table is a map: a store that does not overflow sets exactly its key, and
      one that overflows had no entry to lose. */
  lemma StoreIsMapUpdate(t: Table, k: ContextKey, epoch: nat, result: nat)
    requires CoherentIn(t, epoch)
    ensures var t' := Store(t, k, epoch, result);
            && CoherentIn(t', epoch)
            && (forall other :: Lookup(t', other, epoch) ==
                 if other == k && PlaceSlot(t, k, epoch).Some? then Some(result) else Lookup(t, other, epoch))
    ensures PlaceSlot(t, k, epoch).None? ==> Lookup(t, k, epoch) == None
  {
    var v := ViewOf(t, epoch);
    var t' := Store(t, k, epoch, result);
    AbsentKey(v, k, LowWord, MAX_PROBE);
    if PlaceSlot(t, k, epoch).Some? {
      var w := PlaceSlot(t, k, epoch).value;
      PlaceKeepsCoherent(v, k, LowWord, MAX_PROBE);
      assert ViewOf(t', epoch) == v[w := Some(k)];
      forall other
        ensures Lookup(t', other, epoch) == if other == k then Some(result) else Lookup(t, other, epoch)
      {
        if other != k && FindSlot(t, other, epoch).Some? { assert FindSlot(t, other, epoch).value != w; }
      }
    }
  }

  /** A store overflows exactly when the 32 slots from the key's low word on, modulo the size, are all live
      with other keys. */
  lemma OverflowsExactly(t: Table, k: ContextKey, epoch: nat)
    ensures PlaceSlot(t, k, epoch).None? <==>
            forall n :: 0 <= n < 32 ==> var s := t[ProbeAt(ViewOf(t, epoch), k, LowWord, n)];
                                        s.occupied && s.epoch == epoch && s.key != k
  {
    hide Probing.Place, ProbeAt;
    NoPlaceExactly(ViewOf(t, epoch), k, LowWord, MAX_PROBE);
  }

  lemma RoomForKey(t: Table, k: ContextKey, epoch: nat, n: nat)
    requires n < 32 && var s := t[(k.lo + n) % |t|]; !s.occupied || s.epoch != epoch || s.key == k
    ensures PlaceSlot(t, k, epoch).Some?
  {
    hide Probing.Place;
    NoPlaceExactly(ViewOf(t, epoch), k, LowWord, MAX_PROBE);
    assert ProbeAt(ViewOf(t, epoch), k, LowWord, n) == (k.lo + n) % |t|;
  }

  /** What is stored is what the next lookup returns, unless the store overflowed. */
  lemma StoredIsFound(t: Table, k: ContextKey, epoch: nat, result: nat)
    requires PlaceSlot(t, k, epoch).Some?
    ensures Lookup(Store(t, k, epoch, result), k, epoch) == Some(result)
  {
    var v, w := ViewOf(t, epoch), PlaceSlot(t, k, epoch).value;
    PlacedIsFound(v, k, Home(k.lo, |v|), MAX_PROBE);
    assert ViewOf(Store(t, k, epoch, result), epoch) == v[w := Some(k)];
  }

  // ---- runs of stores ------------------------------------------------------------------------

  type StoreOp = Stored<ContextKey, nat>

  function EmptyTable(capacity: nat): (t: seq<Slot>)
    ensures |t| == capacity
  {
    seq(capacity, _ => EMPTY)
  }

  function Run(capacity: nat, ops: seq<StoreOp>): (t: Table)
    requires capacity > 0
    ensures |t| == capacity
  {
    if ops == [] then EmptyTable(capacity)
    else
      var op := ops[|ops| - 1];
      Store(Run(capacity, ops[..|ops| - 1]), op.key, op.epoch, op.value)
  }

  /** The reference: a map that a new epoch clears and that a placed store updates. */
  ghost function MapRun(capacity: nat, ops: seq<StoreOp>): map<ContextKey, nat>
    requires capacity > 0
  {
    if ops == [] then map[]
    else
      var before := ops[..|ops| - 1];
      var op := ops[|ops| - 1];
      var m := if before != [] && before[|before| - 1].epoch == op.epoch then MapRun(capacity, before) else map[];
      if PlaceSlot(Run(capacity, before), op.key, op.epoch).Some? then m[op.key := op.value] else m
  }

  ghost predicate EpochsAscend(ops: seq<StoreOp>) {
    forall i, j :: 0 <= i <= j < |ops| ==> ops[i].epoch <= ops[j].epoch
  }

  /** Every slot in use carries the tag and the value of some store of the run. */
  lemma {:induction false} SlotsComeFromStores(capacity: nat, ops: seq<StoreOp>, j: nat)
    requires capacity > 0 && j < capacity && Run(capacity, ops)[j].occupied
    ensures var s := Run(capacity, ops)[j]; Stored(s.key, s.epoch, s.result) in ops
  {
    if ops != [] {
      var before := ops[..|ops| - 1];
      if Run(capacity, before)[j] == Run(capacity, ops)[j] {
        SlotsComeFromStores(capacity, before, j);
      }
    }
  }

  /** Whatever the order of the epochs, a hit is a value stored under exactly that key and epoch. */
  lemma HitWasStored(capacity: nat, ops: seq<StoreOp>, k: ContextKey, epoch: nat)
    requires capacity > 0 && Lookup(Run(capacity, ops), k, epoch).Some?
    ensures Stored(k, epoch, Lookup(Run(capacity, ops), k, epoch).value) in ops
  {
    SlotsComeFromStores(capacity, ops, FindSlot(Run(capacity, ops), k, epoch).value);
  }

  /** So when the stores of a key in an epoch agree, every hit is exact, duplicate slots or not. */
  lemma AgreeingStoresHitExactly(capacity: nat, ops: seq<StoreOp>, k: ContextKey, epoch: nat, result: nat)
    requires capacity > 0
    requires forall op :: op in ops && op.key == k && op.epoch == epoch ==> op.value == result
    ensures Lookup(Run(capacity, ops), k, epoch) in {None, Some(result)}
  {
    if Lookup(Run(capacity, ops), k, epoch).Some? { HitWasStored(capacity, ops, k, epoch); }
  }

  /** A fresh table misses, and a first store is hit. */
  lemma FirstStoreHits(capacity: nat, op: StoreOp)
    requires capacity > 0
    ensures Lookup(Run(capacity, []), op.key, op.epoch) == None
    ensures Lookup(Run(capacity, [op]), op.key, op.epoch) == Some(op.value)
  {
    var t, i := Run(capacity, []), Probing.Home(LowWord(op.key), capacity);
    assert ViewOf(t, op.epoch)[i] == None;
    assert PlaceSlot(t, op.key, op.epoch) == Some(i);
    assert [op][..0] == [];
    assert Run(capacity, [op]) == Store(t, op.key, op.epoch, op.value);
    StoreIsMapUpdate(t, op.key, op.epoch, op.value);
  }

  /** With epochs that never go back, the table is the reference map of the current epoch. */
  lemma {:induction false} RunIsMap(capacity: nat, ops: seq<StoreOp>, epoch: nat)
    requires capacity > 0 && EpochsAscend(ops)
    requires ops != [] ==> ops[|ops| - 1].epoch <= epoch
    ensures CoherentIn(Run(capacity, ops), epoch)
    ensures ops != [] && ops[|ops| - 1].epoch == epoch ==>
              forall k :: Lookup(Run(capacity, ops), k, epoch) ==
                if k in MapRun(capacity, ops) then Some(MapRun(capacity, ops)[k]) else None
    ensures ops == [] || ops[|ops| - 1].epoch < epoch ==>
              forall k :: Lookup(Run(capacity, ops), k, epoch) == None
  {
    var t := Run(capacity, ops);
    if ops == [] || ops[|ops| - 1].epoch < epoch {
      forall j | 0 <= j < |t| ensures !Live(t[j], epoch) {
        if t[j].occupied { SlotsComeFromStores(capacity, ops, j); }
      }
    } else {
      var before, op := ops[..|ops| - 1], ops[|ops| - 1];
      RunIsMap(capacity, before, epoch);
      StoreIsMapUpdate(Run(capacity, before), op.key, epoch, op.value);
    }
  }

  // ---- the cache object ----------------------------------------------------------------------

  class Cache {
    const slots: array<Slot>
    var hits: nat
    var misses: nat
    var stores: nat
    var overflow: nat

    constructor (capacity: nat)
      requires capacity > 0
      ensures fresh(slots) && slots[..] == EmptyTable(capacity)
      ensures hits == misses == stores == overflow == 0
    {
      slots := new Slot[capacity](_ => EMPTY);
      hits, misses, stores, overflow := 0, 0, 0, 0;
    }

    method LookUp(k: ContextKey, epoch: nat) returns (result: Option<nat>)
      requires slots.Length > 0
      modifies this
      ensures result == Lookup(slots[..], k, epoch)
      ensures hits == old(hits) + if result.Some? then 1 else 0
      ensures misses == old(misses) + if result.Some? then 0 else 1
      ensures stores == old(stores) && overflow == old(overflow)
    {
      ghost var v := ViewOf(slots[..], epoch);
      var i: nat := Home(LowWord(k), slots.Length);
      var p: nat := 0;
      while p < MAX_PROBE
        invariant i < slots.Length && p <= MAX_PROBE
        invariant hits == old(hits) && misses == old(misses)
        invariant stores == old(stores) && overflow == old(overflow)
        invariant FindSlot(slots[..], k, epoch) == FindFrom(v, k, i, MAX_PROBE - p)
      {
        var s := slots[i];
        if s.epoch == epoch && s.occupied && s.key == k {
          hits := hits + 1;
          return Some(s.result);
        }
        if !s.occupied || s.epoch != epoch { break; }
        i := Next(i, slots.Length);
        p := p + 1;
      }
      misses := misses + 1;
      return None;
    }

    method Put(k: ContextKey, epoch: nat, result: nat)
      requires slots.Length > 0
      modifies this, slots
      ensures slots[..] == Store(old(slots[..]), k, epoch, result)
      ensures stores == old(stores) + if PlaceSlot(old(slots[..]), k, epoch).Some? then 1 else 0
      ensures overflow == old(overflow) + if PlaceSlot(old(slots[..]), k, epoch).Some? then 0 else 1
      ensures hits == old(hits) && misses == old(misses)
    {
      ghost var v := ViewOf(slots[..], epoch);
      var i: nat := Home(LowWord(k), slots.Length);
      var p: nat := 0;
      while p < MAX_PROBE
        invariant i < slots.Length && p <= MAX_PROBE
        invariant slots[..] == old(slots[..]) && stores == old(stores) && overflow == old(overflow)
        invariant hits == old(hits) && misses == old(misses)
        invariant PlaceSlot(slots[..], k, epoch) == PlaceFrom(v, k, i, MAX_PROBE - p)
      {
        var s := slots[i];
        var stale := s.occupied && s.epoch != epoch;
        if !s.occupied || stale || (s.epoch == epoch && s.key == k) {
          slots[i] := Slot(k, epoch, result, true);
          stores := stores + 1;
          return;
        }
        i := Next(i, slots.Length);
        p := p + 1;
      }
      overflow := overflow + 1;
    }
  }
}
