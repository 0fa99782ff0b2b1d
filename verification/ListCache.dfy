/** The family-list cache: a direct-mapped table of whole lists, tagged with the epoch they were
    stored in. */
module ListCache {
  import opened Wrappers
  import opened CacheLog
  import opened Scopes
  import opened Probing

  type Entries = seq<ScopeRef>
  type StoreOp = Stored<nat, Entries>

  /** A slot in use holds the last store to it. */
  type Slot = Option<StoreOp>

  function Lookup(t: seq<Slot>, key: nat, epoch: nat): Option<Entries>
    requires |t| > 0
  {
    var s := t[Home(key, |t|)];
    if s.Some? && s.value.key == key && s.value.epoch == epoch then Some(s.value.value) else None
  }

  function Store(t: seq<Slot>, op: StoreOp): (t': seq<Slot>)
    requires |t| > 0
    ensures |t'| == |t|
  {
    t[Home(op.key, |t|) := Some(op)]
  }

  function EmptyTable(capacity: nat): (t: seq<Slot>)
    ensures |t| == capacity
  {
    seq(capacity, _ => None)
  }

  function Run(capacity: nat, ops: seq<StoreOp>): (t: seq<Slot>)
    requires capacity > 0
    ensures |t| == capacity
  {
    if ops == [] then EmptyTable(capacity) else Store(Run(capacity, ops[..|ops| - 1]), ops[|ops| - 1])
  }

  lemma RunAppend(capacity: nat, ops: seq<StoreOp>, op: StoreOp)
    requires capacity > 0
    ensures Run(capacity, ops + [op]) == Store(Run(capacity, ops), op)
  {
    assert (ops + [op])[..|ops|] == ops;
  }

  lemma StoredIsFound(t: seq<Slot>, op: StoreOp)
    requires |t| > 0
    ensures Lookup(Store(t, op), op.key, op.epoch) == Some(op.value)
  {
  }

  /** The stores j of a run is the last one that went to the slot of key. */
  ghost predicate LastToSlot(capacity: nat, ops: seq<StoreOp>, key: nat, j: nat)
    requires capacity > 0
  {
    && j < |ops| && ops[j].key % capacity == key % capacity
    && forall i :: j < i < |ops| ==> ops[i].key % capacity != key % capacity
  }

  lemma {:induction false} SlotHoldsLast(capacity: nat, ops: seq<StoreOp>, key: nat, op: StoreOp)
    requires capacity > 0
    ensures Run(capacity, ops)[Home(key, capacity)] == Some(op) <==>
            exists j: nat :: LastToSlot(capacity, ops, key, j) && ops[j] == op
  {
    if ops != [] {
      var before, n := ops[..|ops| - 1], |ops| - 1;
      SlotHoldsLast(capacity, before, key, op);
      if Home(ops[n].key, capacity) == Home(key, capacity) {
        assert LastToSlot(capacity, ops, key, n);
        assert forall j: nat :: LastToSlot(capacity, ops, key, j) ==> j == n;
      } else {
        assert forall j: nat :: LastToSlot(capacity, ops, key, j) <==> LastToSlot(capacity, before, key, j);
      }
    }
  }

  /** A lookup hits exactly when the last store to its slot was for that key and epoch; the hit is
      that store's list, so it is the most recent list stored for the key. */
  lemma HitIsLastStore(capacity: nat, ops: seq<StoreOp>, key: nat, epoch: nat, entries: Entries)
    requires capacity > 0
    ensures Lookup(Run(capacity, ops), key, epoch) == Some(entries) <==>
            exists j: nat :: LastToSlot(capacity, ops, key, j) && ops[j] == Stored(key, epoch, entries)
    ensures Lookup(Run(capacity, ops), key, epoch) == Some(entries) ==> Stored(key, epoch, entries) in ops
  {
    hide Home, Run;
    SlotHoldsLast(capacity, ops, key, Stored(key, epoch, entries));
  }

  /** A fresh cache misses, and a first store is hit. */
  lemma FirstStoreHits(capacity: nat, op: StoreOp)
    requires capacity > 0
    ensures Lookup(Run(capacity, []), op.key, op.epoch) == None
    ensures Lookup(Run(capacity, [op]), op.key, op.epoch) == Some(op.value)
  {
    hide Home;
    assert [op][..0] == [];
    assert Run(capacity, [op]) == Store(Run(capacity, []), op);
  }

  class Cache {
    const slots: array<Slot>
    var hits: nat
    var stores: nat
    var evicted: nat

    constructor (capacity: nat)
      requires capacity > 0
      ensures fresh(slots) && slots[..] == EmptyTable(capacity) && hits == stores == evicted == 0
    {
      slots := new Slot[capacity](_ => None);
      hits, stores, evicted := 0, 0, 0;
    }

    method LookUp(key: nat, epoch: nat) returns (entries: Option<Entries>)
      requires slots.Length > 0
      modifies this
      ensures entries == Lookup(slots[..], key, epoch)
      ensures hits == old(hits) + if entries.Some? then 1 else 0
      ensures stores == old(stores) && evicted == old(evicted)
    {
      var s := slots[Home(key, slots.Length)];
      if s.Some? && s.value.key == key && s.value.epoch == epoch {
        hits := hits + 1;
        return Some(s.value.value);
      }
      return None;
    }

    method Put(key: nat, epoch: nat, entries: Entries)
      requires slots.Length > 0
      modifies this, slots
      ensures slots[..] == Store(old(slots[..]), Stored(key, epoch, entries))
      ensures hits == old(hits) && stores == old(stores) + 1
      ensures var s := old(slots[Home(key, slots.Length)]);
              evicted == old(evicted) + if s.Some? && s.value.key != key then 1 else 0
    {
      var i := Home(key, slots.Length);
      if slots[i].Some? && slots[i].value.key != key { evicted := evicted + 1; }
      slots[i] := Some(Stored(key, epoch, entries));
      stores := stores + 1;
    }
  }
}
