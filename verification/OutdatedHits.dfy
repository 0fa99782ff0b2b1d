/** When a hit in the epoch cache can be outdated: which orders of epochs let a lookup return a value that a
    later store under the same key and epoch had replaced, and which never do. */
module OutdatedHits {
  import opened Wrappers
  import opened CacheLog
  import opened Probing
  import opened EpochCache

  /** The value of the last store under a key and epoch. */
  function LastStore(ops: seq<StoreOp>, k: ContextKey, e: nat): Option<nat> {
    if ops == [] then None
    else
      var op := ops[|ops| - 1];
      if op.key == k && op.epoch == e then Some(op.value) else LastStore(ops[..|ops| - 1], k, e)
  }

  /** A lookup of k in e hits, but not the last value stored. */
  predicate Outdated(capacity: nat, ops: seq<StoreOp>, k: ContextKey, e: nat)
    requires capacity > 0
  {
    var hit := Lookup(Run(capacity, ops), k, e);
    hit.Some? && hit != LastStore(ops, k, e)
  }

  function Epochs(ops: seq<StoreOp>): seq<nat> {
    seq(|ops|, j requires 0 <= j < |ops| => ops[j].epoch)
  }

  /** Whether the n-th of six chosen stores is one in the epoch: in, in, out, in, out, in. */
  predicate Inside(n: nat) {
    n != 2 && n != 4
  }

  /** Two stores in the epoch, then twice one outside it and one inside, at the indices i. */
  ghost predicate Interrupted(epochs: seq<nat>, e: nat, i: seq<nat>) {
    && |i| == 6 && Chosen(epochs, e, i)
  }

  ghost predicate Chosen(epochs: seq<nat>, e: nat, i: seq<nat>) {
    && (forall n :: 0 <= n < |i| ==> i[n] < |epochs| && (epochs[i[n]] == e <==> Inside(n)))
    && (forall m, n :: 0 <= m < n < |i| ==> i[m] < i[n])
  }

  // ---- without the pattern no hit is outdated ------------------------------------------------

  /** How much of the pattern the epochs contain. */
  function Matched(epochs: seq<nat>, e: nat): (m: nat)
    ensures m <= 6
  {
    if epochs == [] then 0
    else
      var m := Matched(epochs[..|epochs| - 1], e);
      if m < 6 && (epochs[|epochs| - 1] == e <==> Inside(m)) then m + 1 else m
  }

  lemma {:induction false} MatchedChoice(epochs: seq<nat>, e: nat) returns (i: seq<nat>)
    ensures |i| == Matched(epochs, e) && Chosen(epochs, e, i)
  {
    if epochs == [] {
      i := [];
    } else {
      i := MatchedChoice(epochs[..|epochs| - 1], e);
      if Matched(epochs, e) > |i| { i := i + [|epochs| - 1]; }
    }
  }

  /** Every live slot of the epoch holds its key's last value. */
  ghost predicate LiveAreLast(t: Table, ops: seq<StoreOp>, e: nat) {
    forall j :: 0 <= j < |t| && Live(t[j], e) ==> LastStore(ops, t[j].key, e) == Some(t[j].result)
  }

  /** At most the home slots are live: so it is while the epoch has had no more than one store. */
  ghost predicate AtHome(t: Table, e: nat) {
    && (forall j :: 0 <= j < |t| && Live(t[j], e) ==> Home(t[j].key.lo, |t|) == j)
    && (forall i, j :: 0 <= i < |t| && 0 <= j < |t| && Live(t[i], e) && Live(t[j], e) ==> i == j)
  }

  ghost predicate OneLiveSlotPerKey(t: Table, e: nat) {
    forall i, j :: 0 <= i < j < |t| && Live(t[i], e) && Live(t[j], e) ==> t[i].key != t[j].key
  }

  /** What holds of a key once the epoch has been left with gaps and come back to: a lookup hits its last
      value, or its slots are all taken, or it has one live slot at most, with its last value. */
  ghost predicate KeyOk(t: Table, ops: seq<StoreOp>, e: nat, k: ContextKey) {
    || (FindSlot(t, k, e).Some? && LastStore(ops, k, e) == Some(t[FindSlot(t, k, e).value].result))
    || PlaceSlot(t, k, e).None?
    || (&& (forall j :: 0 <= j < |t| && Live(t[j], e) && t[j].key == k ==> LastStore(ops, k, e) == Some(t[j].result))
        && (forall i, j :: 0 <= i < j < |t| && Live(t[i], e) && Live(t[j], e) ==> t[i].key != k || t[j].key != k))
  }

  ghost predicate HitsAreLast(t: Table, ops: seq<StoreOp>, e: nat) {
    forall k :: FindSlot(t, k, e).Some? ==> LastStore(ops, k, e) == Some(t[FindSlot(t, k, e).value].result)
  }

  /** What holds after a run, by how much of the pattern its epochs contain. */
  ghost predicate Holds(t: Table, ops: seq<StoreOp>, e: nat, m: nat) {
    if m == 0 then forall j :: 0 <= j < |t| ==> !Live(t[j], e)
    else if m == 1 then AtHome(t, e) && LiveAreLast(t, ops, e)
    else if m == 2 then CoherentIn(t, e) && LiveAreLast(t, ops, e)
    else if m == 3 then OneLiveSlotPerKey(t, e) && LiveAreLast(t, ops, e)
    else if m == 4 then forall k :: KeyOk(t, ops, e, k)
    else if m == 5 then HitsAreLast(t, ops, e)
    else true
  }

  lemma HomeIsCoherent(t: Table, e: nat)
    requires AtHome(t, e)
    ensures CoherentIn(t, e)
  {
    var v := ViewOf(t, e);
    forall j | 0 <= j < |v| && v[j].Some? ensures Find(v, v[j].value, LowWord, MAX_PROBE) == Some(j) {
      assert Live(t[j], e);
    }
  }

  lemma CoherentIsOne(t: Table, e: nat)
    requires CoherentIn(t, e)
    ensures OneLiveSlotPerKey(t, e)
  {
    hide Probing.Coherent;
    var v := ViewOf(t, e);
    forall i, j | 0 <= i < j < |t| && Live(t[i], e) && Live(t[j], e) ensures t[i].key != t[j].key {
      DistinctKeys(v, LowWord, MAX_PROBE, i, j);
    }
  }

  lemma KeyOkHits(t: Table, ops: seq<StoreOp>, e: nat, k: ContextKey)
    requires KeyOk(t, ops, e, k) && FindSlot(t, k, e).Some?
    ensures LastStore(ops, k, e) == Some(t[FindSlot(t, k, e).value].result)
  {
    FoundIsPlaced(ViewOf(t, e), k, Home(LowWord(k), |t|), MAX_PROBE);
  }

  /** Each stage implies the next. */
  lemma Weaker(t: Table, ops: seq<StoreOp>, e: nat, m: nat)
    requires Holds(t, ops, e, m)
    ensures Holds(t, ops, e, m + 1)
  {
    hide FindSlot, PlaceSlot, LastStore, Home, CoherentIn;
    if m == 1 {
      HomeIsCoherent(t, e);
    } else if m == 2 {
      CoherentIsOne(t, e);
    } else if m == 3 {
      forall k ensures KeyOk(t, ops, e, k) {}
    } else if m == 4 {
      forall k | FindSlot(t, k, e).Some? ensures LastStore(ops, k, e) == Some(t[FindSlot(t, k, e).value].result) {
        KeyOkHits(t, ops, e, k);
      }
    }
  }

  lemma LastStoreStep(ops: seq<StoreOp>, op: StoreOp, k: ContextKey, e: nat)
    ensures LastStore(ops + [op], k, e) == if op.key == k && op.epoch == e then Some(op.value) else LastStore(ops, k, e)
  {
    assert (ops + [op])[..|ops|] == ops;
  }

  /** Where a store of another epoch goes, a key of this one is lost. */
  lemma OtherEpochView(t: Table, op: StoreOp, e: nat)
    requires op.epoch != e
    ensures var t', w := Store(t, op.key, op.epoch, op.value), PlaceSlot(t, op.key, op.epoch);
            if w.None? then t' == t
            else && ViewOf(t', e) == ViewOf(t, e)[w.value := None]
                 && forall j :: 0 <= j < |t| && j != w.value ==> t'[j] == t[j]
  {
    hide PlaceSlot;
    var t', w := Store(t, op.key, op.epoch, op.value), PlaceSlot(t, op.key, op.epoch);
    if w.Some? { assert ViewOf(t', e) == ViewOf(t, e)[w.value := None]; }
  }

  /** A store of another epoch leaves fewer live slots, and what is still hit was hit before. */
  lemma OtherEpochStore(t: Table, ops: seq<StoreOp>, op: StoreOp, e: nat, m: nat)
    requires op.epoch != e && Holds(t, ops, e, m) && m in {0, 1, 3, 5}
    ensures Holds(Store(t, op.key, op.epoch, op.value), ops + [op], e, m)
  {
    hide PlaceSlot, LastStore, Home, Find;
    var t' := Store(t, op.key, op.epoch, op.value);
    OtherEpochView(t, op, e);
    forall k ensures LastStore(ops + [op], k, e) == LastStore(ops, k, e) { LastStoreStep(ops, op, k, e); }
    assert forall j :: 0 <= j < |t'| && Live(t'[j], e) ==> t'[j] == t[j];
    if m == 5 {
      forall k | FindSlot(t', k, e).Some?
        ensures LastStore(ops + [op], k, e) == Some(t'[FindSlot(t', k, e).value].result)
      {
        HitBefore(t, op, e, k);
      }
    }
  }

  lemma HitBefore(t: Table, op: StoreOp, e: nat, k: ContextKey)
    requires op.epoch != e && FindSlot(Store(t, op.key, op.epoch, op.value), k, e).Some?
    ensures var t' := Store(t, op.key, op.epoch, op.value);
            FindSlot(t, k, e) == FindSlot(t', k, e) && t'[FindSlot(t', k, e).value] == t[FindSlot(t', k, e).value]
  {
    hide PlaceSlot, Store;
    OtherEpochView(t, op, e);
    var w := PlaceSlot(t, op.key, op.epoch);
    if w.Some? { FoundAfterRemoval(ViewOf(t, e), w.value, k, Home(LowWord(k), |t|), MAX_PROBE); }
  }

  /** The first store of the epoch goes home. */
  lemma FirstStore(t: Table, ops: seq<StoreOp>, op: StoreOp, e: nat)
    requires op.epoch == e && Holds(t, ops, e, 0)
    ensures Holds(Store(t, op.key, e, op.value), ops + [op], e, 1)
  {
    var v, h := ViewOf(t, e), Home(LowWord(op.key), |t|);
    assert v[h] == None;
    assert PlaceSlot(t, op.key, e) == Some(h);
    LastStoreStep(ops, op, op.key, e);
  }

  /** In a coherent table a store replaces the value of its key and no other. */
  lemma CoherentStore(t: Table, ops: seq<StoreOp>, op: StoreOp, e: nat)
    requires op.epoch == e && Holds(t, ops, e, 2)
    ensures Holds(Store(t, op.key, e, op.value), ops + [op], e, 2)
  {
    hide PlaceSlot, LastStore, Home, Probing.Coherent, Find, Place;
    var t' := Store(t, op.key, e, op.value);
    StoreIsMapUpdate(t, op.key, e, op.value);
    CoherentIsOne(t', e);
    forall j | 0 <= j < |t'| && Live(t'[j], e) ensures LastStore(ops + [op], t'[j].key, e) == Some(t'[j].result) {
      LastStoreStep(ops, op, t'[j].key, e);
      NoOtherSlot(t, op, e, j);
    }
  }

  /** After the store a live slot is the one just written, or an old one of another key. */
  lemma NoOtherSlot(t: Table, op: StoreOp, e: nat, j: nat)
    requires op.epoch == e && CoherentIn(t, e) && j < |t|
    requires Live(Store(t, op.key, e, op.value)[j], e)
    ensures var s' := Store(t, op.key, e, op.value)[j];
            s' == Slot(op.key, e, op.value, true) || (s' == t[j] && s'.key != op.key)
  {
    hide Probing.Coherent, Find, Place;
    var v, w := ViewOf(t, e), PlaceSlot(t, op.key, e);
    if w.None? || w.value != j {
      assert v[j] == Some(t[j].key) && v[j] in v;
      AbsentKey(v, op.key, LowWord, MAX_PROBE);
      if t[j].key == op.key { DistinctKeys(v, LowWord, MAX_PROBE, j, w.value); }
    }
  }

  lemma KeyOkStore(t: Table, ops: seq<StoreOp>, op: StoreOp, e: nat, k: ContextKey)
    requires op.epoch == e && KeyOk(t, ops, e, k)
    ensures KeyOk(Store(t, op.key, e, op.value), ops + [op], e, k)
  {
    hide LastStore, Home, FindFrom, PlaceFrom;
    LastStoreStep(ops, op, k, e);
    var v, w, h := ViewOf(t, e), PlaceSlot(t, op.key, e), Home(LowWord(k), |t|);
    if w.Some? {
      var t' := Store(t, op.key, e, op.value);
      assert ViewOf(t', e) == v[w.value := Some(op.key)];
      if k == op.key {
        PlacedIsFound(v, k, h, MAX_PROBE);
      } else if FindSlot(t, k, e).Some? && LastStore(ops, k, e) == Some(t[FindSlot(t, k, e).value].result) {
        OtherKeyStays(v, op.key, w.value, k, h, MAX_PROBE);
      } else if PlaceSlot(t, k, e).None? {
        StillNoPlace(v, op.key, w.value, k, h, MAX_PROBE);
      }
    }
  }

  lemma {:induction false} RunHolds(capacity: nat, ops: seq<StoreOp>, e: nat)
    requires capacity > 0
    ensures Holds(Run(capacity, ops), ops, e, Matched(Epochs(ops), e))
  {
    hide Holds, Store;
    if ops == [] {
      NothingLive(capacity, e);
    } else {
      var n := |ops| - 1;
      var before, op, t := ops[..n], ops[n], Run(capacity, ops[..n]);
      var m := Matched(Epochs(before), e);
      RunHolds(capacity, before, e);
      assert Epochs(ops)[..n] == Epochs(before);
      assert before + [op] == ops;
      if op.epoch == e { InsideStep(t, before, op, e, m); } else { OutsideStep(t, before, op, e, m); }
    }
  }

  lemma NothingLive(capacity: nat, e: nat)
    requires capacity > 0
    ensures Holds(Run(capacity, []), [], e, 0)
  {
  }

  lemma InsideStep(t: Table, ops: seq<StoreOp>, op: StoreOp, e: nat, m: nat)
    requires op.epoch == e && Holds(t, ops, e, m) && m <= 6
    ensures Holds(Store(t, op.key, e, op.value), ops + [op], e, if m < 6 && Inside(m) then m + 1 else m)
  {
    hide Store, KeyOk;
    if m == 0 {
      FirstStore(t, ops, op, e);
    } else if m <= 2 {
      if m == 1 { Weaker(t, ops, e, 1); }
      CoherentStore(t, ops, op, e);
    } else if m <= 4 {
      if m == 3 { Weaker(t, ops, e, 3); }
      forall k ensures KeyOk(Store(t, op.key, e, op.value), ops + [op], e, k) { KeyOkStore(t, ops, op, e, k); }
    }
  }

  lemma OutsideStep(t: Table, ops: seq<StoreOp>, op: StoreOp, e: nat, m: nat)
    requires op.epoch != e && Holds(t, ops, e, m) && m <= 6
    ensures Holds(Store(t, op.key, op.epoch, op.value), ops + [op], e, if m < 6 && !Inside(m) then m + 1 else m)
  {
    hide Holds, Store;
    if m == 2 || m == 4 {
      Weaker(t, ops, e, m);
      OtherEpochStore(t, ops, op, e, m + 1);
    } else if m < 6 {
      OtherEpochStore(t, ops, op, e, m);
    } else {
      Anything(Store(t, op.key, op.epoch, op.value), ops + [op], e);
    }
  }

  lemma Anything(t: Table, ops: seq<StoreOp>, e: nat)
    ensures Holds(t, ops, e, 6)
  {
  }

  /** An outdated hit needs the pattern. In particular a run that comes back to an epoch at most once never
      serves an outdated value in it. */
  lemma OutdatedHitIsInterrupted(capacity: nat, ops: seq<StoreOp>, k: ContextKey, e: nat) returns (i: seq<nat>)
    requires capacity > 0 && Outdated(capacity, ops, k, e)
    ensures Interrupted(Epochs(ops), e, i)
  {
    hide FindSlot, LastStore, Matched, Run;
    var m := Matched(Epochs(ops), e);
    RunHolds(capacity, ops, e);
    if m <= 5 { WeakerTo(Run(capacity, ops), ops, e, m, 5); }
    i := MatchedChoice(Epochs(ops), e);
  }

  lemma {:induction false} WeakerTo(t: Table, ops: seq<StoreOp>, e: nat, m: nat, n: nat)
    requires Holds(t, ops, e, m) && m <= n
    ensures Holds(t, ops, e, n)
    decreases n - m
  {
    hide Holds;
    if m < n {
      Weaker(t, ops, e, m);
      WeakerTo(t, ops, e, m + 1, n);
    }
  }

  // ---- with the pattern a hit can be outdated ------------------------------------------------

  const A := ContextKey(0, 1)
  const B := ContextKey(0, 2)
  const C := ContextKey(0, 3)
  const D := ContextKey(0, 4)
  const Z := ContextKey(3, 0)      // the key of all other stores, away from the rest

  /** The stores at the six indices, all but Z at home in slot 0: B goes next to A, C makes room for a second
      B before it, D takes that one's place, and A comes back there, so that the first B is reached again. */
  function OpAt(epochs: seq<nat>, i: seq<nat>, j: nat): StoreOp
    requires |i| == 6 && j < |epochs|
  {
    if j == i[1] then Stored(B, epochs[j], 2)
    else if j == i[3] then Stored(B, epochs[j], 3)
    else if j == i[0] || j == i[5] then Stored(A, epochs[j], 1)
    else if j == i[2] then Stored(C, epochs[j], 0)
    else if j == i[4] then Stored(D, epochs[j], 0)
    else Stored(Z, epochs[j], 0)
  }

  function OpsOf(epochs: seq<nat>, i: seq<nat>): (ops: seq<StoreOp>)
    requires |i| == 6
    ensures |ops| == |epochs| && forall j :: 0 <= j < |ops| ==> ops[j] == OpAt(epochs, i, j)
  {
    seq(|epochs|, j requires 0 <= j < |epochs| => OpAt(epochs, i, j))
  }

  /** A table of four slots in which only Z is ever at home in the last. */
  ghost predicate Is(t: Table, s0: Slot, s1: Slot) {
    |t| == 4 && t[0] == s0 && t[1] == s1 && (t[3].occupied ==> t[3].key == Z)
  }

  lemma RunStep(ops: seq<StoreOp>, j: nat)
    requires j < |ops|
    ensures Run(4, ops[..j + 1]) == Store(Run(4, ops[..j]), ops[j].key, ops[j].epoch, ops[j].value)
  {
    assert ops[..j + 1][..j] == ops[..j];
  }

  lemma StoreAway(t: Table, s0: Slot, s1: Slot, op: StoreOp)
    requires Is(t, s0, s1) && op.key == Z
    ensures Is(Store(t, op.key, op.epoch, op.value), s0, s1)
  {
  }

  lemma StoreAtHome(t: Table, s0: Slot, s1: Slot, op: StoreOp)
    requires Is(t, s0, s1) && op.key.lo == 0 && !Live(s0, op.epoch)
    ensures Is(Store(t, op.key, op.epoch, op.value), Slot(op.key, op.epoch, op.value, true), s1)
  {
  }

  lemma StoreNextToHome(t: Table, s0: Slot, op: StoreOp)
    requires Is(t, s0, EMPTY) && op.key.lo == 0 && Live(s0, op.epoch) && s0.key != op.key
    ensures Is(Store(t, op.key, op.epoch, op.value), s0, Slot(op.key, op.epoch, op.value, true))
  {
    assert PlaceFrom(ViewOf(t, op.epoch), op.key, 1, MAX_PROBE - 1) == Some(1);
  }

  lemma FoundNextToHome(t: Table, s0: Slot, s1: Slot, k: ContextKey, epoch: nat)
    requires Is(t, s0, s1) && k.lo == 0 && Live(s0, epoch) && s0.key != k && Live(s1, epoch) && s1.key == k
    ensures Lookup(t, k, epoch) == Some(s1.result)
  {
    assert FindFrom(ViewOf(t, epoch), k, 1, MAX_PROBE - 1) == Some(1);
  }

  /** Between two of the six stores the first two slots stay. */
  lemma {:induction false} Meanwhile(ops: seq<StoreOp>, s0: Slot, s1: Slot, from: nat, to: nat)
    requires from <= to <= |ops| && Is(Run(4, ops[..from]), s0, s1)
    requires forall j :: from <= j < to ==> ops[j].key == Z
    ensures Is(Run(4, ops[..to]), s0, s1)
  {
    hide Store, Is;
    if from < to {
      Meanwhile(ops, s0, s1, from, to - 1);
      RunStep(ops, to - 1);
      StoreAway(Run(4, ops[..to - 1]), s0, s1, ops[to - 1]);
    }
  }

  /** Up to and including the next of the six stores, which goes home. */
  lemma NextAtHome(ops: seq<StoreOp>, s0: Slot, s1: Slot, from: nat, to: nat)
    requires from <= to < |ops| && Is(Run(4, ops[..from]), s0, s1)
    requires forall j :: from <= j < to ==> ops[j].key == Z
    requires ops[to].key.lo == 0 && !Live(s0, ops[to].epoch)
    ensures Is(Run(4, ops[..to + 1]), Slot(ops[to].key, ops[to].epoch, ops[to].value, true), s1)
  {
    hide Store, Is, Run;
    Meanwhile(ops, s0, s1, from, to);
    RunStep(ops, to);
    StoreAtHome(Run(4, ops[..to]), s0, s1, ops[to]);
  }

  lemma OthersAreZ(epochs: seq<nat>, e: nat, i: seq<nat>)
    requires Interrupted(epochs, e, i)
    ensures forall j :: 0 <= j < |epochs| && j !in i ==> OpAt(epochs, i, j).key == Z
    ensures OpAt(epochs, i, i[0]) == Stored(A, e, 1) && OpAt(epochs, i, i[1]) == Stored(B, e, 2)
    ensures OpAt(epochs, i, i[2]) == Stored(C, epochs[i[2]], 0) && OpAt(epochs, i, i[3]) == Stored(B, e, 3)
    ensures OpAt(epochs, i, i[4]) == Stored(D, epochs[i[4]], 0) && OpAt(epochs, i, i[5]) == Stored(A, e, 1)
    ensures epochs[i[2]] != e && epochs[i[4]] != e
  {
  }

  /** Strictly between two neighbouring indices all stores are under Z. */
  lemma Between(epochs: seq<nat>, e: nat, i: seq<nat>, n: nat)
    requires Interrupted(epochs, e, i) && n <= 6
    ensures var from, to := if n == 0 then 0 else i[n - 1] + 1, if n == 6 then |epochs| else i[n];
            from <= to && forall j :: from <= j < to ==> OpsOf(epochs, i)[j].key == Z
  {
    hide OpAt;
    var from, to := if n == 0 then 0 else i[n - 1] + 1, if n == 6 then |epochs| else i[n];
    assert forall m :: 0 <= m < n ==> i[m] <= i[n - 1];
    assert n < 6 ==> forall m :: n <= m < 6 ==> i[n] <= i[m];
    forall j | from <= j < to ensures j !in i {
      forall m | 0 <= m < 6 ensures i[m] != j {}
    }
    OthersAreZ(epochs, e, i);
  }

  /** The second of the six, which goes next to the first. */
  lemma NextBeside(ops: seq<StoreOp>, s0: Slot, from: nat, to: nat)
    requires from <= to < |ops| && Is(Run(4, ops[..from]), s0, EMPTY)
    requires forall j :: from <= j < to ==> ops[j].key == Z
    requires ops[to].key.lo == 0 && Live(s0, ops[to].epoch) && s0.key != ops[to].key
    ensures Is(Run(4, ops[..to + 1]), s0, Slot(ops[to].key, ops[to].epoch, ops[to].value, true))
  {
    hide Store, Is, Run;
    Meanwhile(ops, s0, EMPTY, from, to);
    RunStep(ops, to);
    StoreNextToHome(Run(4, ops[..to]), s0, ops[to]);
  }

  lemma NothingStored(ops: seq<StoreOp>)
    ensures Is(Run(4, ops[..0]), EMPTY, EMPTY) && ops[..|ops|] == ops
  {
  }

  lemma Indices(epochs: seq<nat>, e: nat, i: seq<nat>)
    requires Interrupted(epochs, e, i)
    ensures |i| == 6 && i[0] < i[1] < i[2] < i[3] < i[4] < i[5] < |epochs|
  {
  }

  /** The whole run, in a table of four slots. */
  lemma InterruptedRun(epochs: seq<nat>, e: nat, i: seq<nat>)
    requires Interrupted(epochs, e, i)
    ensures |i| == 6 && Is(Run(4, OpsOf(epochs, i)), Slot(A, e, 1, true), Slot(B, e, 2, true))
  {
    hide Is, Run, Store, OpAt, Interrupted;
    Indices(epochs, e, i);
    var ops, a, b := OpsOf(epochs, i), Slot(A, e, 1, true), Slot(B, e, 2, true);
    var c, d := Slot(C, epochs[i[2]], 0, true), Slot(D, epochs[i[4]], 0, true);
    OthersAreZ(epochs, e, i);
    NothingStored(ops);
    Between(epochs, e, i, 0);
    NextAtHome(ops, EMPTY, EMPTY, 0, i[0]);
    Between(epochs, e, i, 1);
    NextBeside(ops, a, i[0] + 1, i[1]);
    Between(epochs, e, i, 2);
    NextAtHome(ops, a, b, i[1] + 1, i[2]);
    Between(epochs, e, i, 3);
    NextAtHome(ops, c, b, i[2] + 1, i[3]);
    Between(epochs, e, i, 4);
    NextAtHome(ops, Slot(B, e, 3, true), b, i[3] + 1, i[4]);
    Between(epochs, e, i, 5);
    NextAtHome(ops, d, b, i[4] + 1, i[5]);
    Between(epochs, e, i, 6);
    Meanwhile(ops, a, b, i[5] + 1, |ops|);
  }

  lemma {:induction false} LastStoreAt(ops: seq<StoreOp>, k: ContextKey, e: nat, j: nat)
    requires j < |ops| && ops[j].key == k && ops[j].epoch == e && forall n :: j < n < |ops| ==> ops[n].key != k
    ensures LastStore(ops, k, e) == Some(ops[j].value)
  {
    if j < |ops| - 1 { LastStoreAt(ops[..|ops| - 1], k, e, j); }
  }

  lemma NoLaterB(epochs: seq<nat>, e: nat, i: seq<nat>)
    requires Interrupted(epochs, e, i)
    ensures forall j :: i[3] < j < |epochs| ==> OpAt(epochs, i, j).key != B
  {
  }

  /** Epochs with the pattern have a run with an outdated hit: it returns 2, and 3 was stored later. */
  lemma InterruptedHitIsOutdated(epochs: seq<nat>, e: nat, i: seq<nat>)
    requires Interrupted(epochs, e, i)
    ensures |i| == 6
    ensures var ops := OpsOf(epochs, i);
            && Epochs(ops) == epochs && Outdated(4, ops, B, e)
            && Lookup(Run(4, ops), B, e) == Some(2) && LastStore(ops, B, e) == Some(3)
  {
    hide Is, Run, Store, OpAt, Interrupted, Lookup, LastStore;
    Indices(epochs, e, i);
    var ops := OpsOf(epochs, i);
    OthersAreZ(epochs, e, i);
    InterruptedRun(epochs, e, i);
    FoundNextToHome(Run(4, ops), Slot(A, e, 1, true), Slot(B, e, 2, true), B, e);
    NoLaterB(epochs, e, i);
    LastStoreAt(ops, B, e, i[3]);
    EpochsOfOps(epochs, i);
  }

  lemma EpochsOfOps(epochs: seq<nat>, i: seq<nat>)
    requires |i| == 6
    ensures Epochs(OpsOf(epochs, i)) == epochs
  {
  }

  /** Exactly: the order of the epochs admits an outdated hit in e, for some keys, values and capacity, if and
      only if it has two stores in e and then twice one outside it followed by one in it. */
  lemma OutdatedHitExactly(epochs: seq<nat>, e: nat)
    ensures (exists capacity: nat, ops, k :: capacity > 0 && Epochs(ops) == epochs && Outdated(capacity, ops, k, e))
            <==> exists i :: Interrupted(epochs, e, i)
  {
    hide Outdated, Interrupted, OpsOf;
    if capacity: nat, ops, k :| capacity > 0 && Epochs(ops) == epochs && Outdated(capacity, ops, k, e) {
      var i := OutdatedHitIsInterrupted(capacity, ops, k, e);
    }
    if i :| Interrupted(epochs, e, i) {
      InterruptedHitIsOutdated(epochs, e, i);
    }
  }

  /** The shortest such run: six stores, as when evaluations that began in epoch 4 store after the epoch
      moved on. No context is stored twice under the older epoch. */
  lemma OutOfOrderHitIsOutdated() returns (ops: seq<StoreOp>, k: ContextKey)
    ensures !EpochsAscend(ops)
    ensures |ops| == 6 && ops[3] == Stored(k, 5, 3) && forall i :: 3 < i < 6 ==> ops[i].key != k
    ensures Epochs(ops) == [5, 5, 4, 5, 4, 5] && ops[2].key != ops[4].key
    ensures Lookup(Run(4, ops), k, 5) == Some(2)
  {
    hide Lookup, Run, LastStore;
    var epochs: seq<nat>, i: seq<nat> := [5, 5, 4, 5, 4, 5], [0, 1, 2, 3, 4, 5];
    assert Interrupted(epochs, 5, i);
    ops, k := OpsOf(epochs, i), B;
    InterruptedHitIsOutdated(epochs, 5, i);
    assert ops[1].epoch == 5 && ops[2].epoch == 4;
  }
}
