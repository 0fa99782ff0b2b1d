/** Open addressing with wrap-around linear probing, as every table of the repository does it.

    A table is seen as its view: for each slot, the key it holds or None when the slot counts as empty.
    The slot hash is any function. A search for a key starts at its home slot and makes at most a
    given number of probes; it gives up at the first empty slot. */
module Probing {
  import opened Wrappers

  type View<K> = seq<Option<K>>

  function Next(i: nat, capacity: nat): (j: nat)
    requires i < capacity
    ensures j < capacity
  {
    if i + 1 < capacity then i + 1 else 0
  }

  /** The capacity is a power of two, so masking the hash is taking the remainder. */
  function Home(hash: nat, capacity: nat): (i: nat)
    requires capacity > 0
    ensures i < capacity
  {
    hash % capacity
  }

  /** The slot that holds k, searching p slots from slot i. */
  function FindFrom<K(==)>(v: View<K>, k: K, i: nat, p: nat): (r: Option<nat>)
    requires i < |v|
    ensures r.Some? ==> r.value < |v| && v[r.value] == Some(k)
    decreases p
  {
    if p == 0 || v[i].None? then None
    else if v[i] == Some(k) then Some(i)
    else FindFrom(v, k, Next(i, |v|), p - 1)
  }

  /** The slot where k goes: the one that holds it, or else the first empty one. */
  function PlaceFrom<K(==)>(v: View<K>, k: K, i: nat, p: nat): (r: Option<nat>)
    requires i < |v|
    ensures r.Some? ==> r.value < |v| && v[r.value] in {None, Some(k)}
    decreases p
  {
    if p == 0 then None
    else if v[i].None? || v[i] == Some(k) then Some(i)
    else PlaceFrom(v, k, Next(i, |v|), p - 1)
  }

  function Find<K(==)>(v: View<K>, k: K, hash: K -> nat, probes: nat): (r: Option<nat>)
    requires |v| > 0
    ensures r.Some? ==> r.value < |v| && v[r.value] == Some(k)
  {
    FindFrom(v, k, Home(hash(k), |v|), probes)
  }

  function Place<K(==)>(v: View<K>, k: K, hash: K -> nat, probes: nat): (r: Option<nat>)
    requires |v| > 0
    ensures r.Some? ==> r.value < |v| && v[r.value] in {None, Some(k)}
  {
    PlaceFrom(v, k, Home(hash(k), |v|), probes)
  }

  /** For loops that hide Place: where the probing starts. */
  lemma PlaceStart<K>(v: View<K>, k: K, hash: K -> nat, probes: nat)
    requires |v| > 0
    ensures Place(v, k, hash, probes) == PlaceFrom(v, k, Home(hash(k), |v|), probes)
  {
  }

  /** Every key in the table is where a search for it ends. */
  ghost predicate Coherent<K>(v: View<K>, hash: K -> nat, probes: nat)
    requires |v| > 0
  {
    forall j :: 0 <= j < |v| && v[j].Some? ==> Find(v, v[j].value, hash, probes) == Some(j)
  }

  lemma OneSlotPerKey<K>(v: View<K>, hash: K -> nat, probes: nat, i: nat, j: nat)
    requires |v| > 0 && Coherent(v, hash, probes)
    requires i < |v| && j < |v| && v[i].Some? && v[i] == v[j]
    ensures i == j
  {
    assert Find(v, v[i].value, hash, probes) == Some(i);
    assert Find(v, v[j].value, hash, probes) == Some(j);
  }

  lemma DistinctKeys<K>(v: View<K>, hash: K -> nat, probes: nat, i: nat, j: nat)
    requires |v| > 0 && Coherent(v, hash, probes)
    requires i < |v| && j < |v| && i != j && v[i].Some?
    ensures v[i] != v[j]
  {
    hide Coherent;
    if v[i] == v[j] { OneSlotPerKey(v, hash, probes, i, j); }
  }

  // ---- placing a key -------------------------------------------------------------------------

  /** Filling the slot chosen for k does not change where another key is found. */
  lemma {:induction false} OtherKeyStays<K>(v: View<K>, k: K, w: nat, other: K, i: nat, p: nat)
    requires w < |v| && v[w] in {None, Some(k)} && other != k && i < |v|
    requires FindFrom(v, other, i, p).Some?
    ensures FindFrom(v[w := Some(k)], other, i, p) == FindFrom(v, other, i, p)
    decreases p
  {
    if v[i] != Some(other) { OtherKeyStays(v, k, w, other, Next(i, |v|), p - 1); }
  }

  /** The key is found in the slot chosen for it: the slots before hold other keys. */
  lemma {:induction false} PlacedIsFound<K>(v: View<K>, k: K, i: nat, p: nat)
    requires i < |v| && PlaceFrom(v, k, i, p).Some?
    ensures FindFrom(v[PlaceFrom(v, k, i, p).value := Some(k)], k, i, p) == PlaceFrom(v, k, i, p)
    decreases p
  {
    if v[i].Some? && v[i] != Some(k) { PlacedIsFound(v, k, Next(i, |v|), p - 1); }
  }

  lemma {:induction false} FoundIsPlaced<K>(v: View<K>, k: K, i: nat, p: nat)
    requires i < |v| && FindFrom(v, k, i, p).Some?
    ensures PlaceFrom(v, k, i, p) == FindFrom(v, k, i, p)
    decreases p
  {
    if v[i] != Some(k) { FoundIsPlaced(v, k, Next(i, |v|), p - 1); }
  }

  /** Placing k keeps the table coherent, and adds k and nothing else to what searches find. */
  lemma PlaceKeepsCoherent<K>(v: View<K>, k: K, hash: K -> nat, probes: nat)
    requires |v| > 0 && Coherent(v, hash, probes) && Place(v, k, hash, probes).Some?
    ensures var w := Place(v, k, hash, probes).value;
            var v' := v[w := Some(k)];
            && Coherent(v', hash, probes) && Find(v', k, hash, probes) == Some(w)
            && forall other :: other != k ==> Find(v', other, hash, probes) == Find(v, other, hash, probes)
  {
    var w := Place(v, k, hash, probes).value;
    var v' := v[w := Some(k)];
    PlacedIsFound(v, k, Home(hash(k), |v|), probes);
    forall j | 0 <= j < |v'| && v'[j].Some? ensures Find(v', v'[j].value, hash, probes) == Some(j) {
      if j != w {
        var other := v[j].value;
        assert Find(v, other, hash, probes) == Some(j);
        if other == k {
          FoundIsPlaced(v, k, Home(hash(k), |v|), probes);
        } else {
          OtherKeyStays(v, k, w, other, Home(hash(other), |v|), probes);
        }
      }
    }
    forall other | other != k ensures Find(v', other, hash, probes) == Find(v, other, hash, probes) {
      if Find(v, other, hash, probes).Some? {
        OtherKeyStays(v, k, w, other, Home(hash(other), |v|), probes);
      } else if Find(v', other, hash, probes).Some? {
        assert false;
      }
    }
  }

  /** A search that fails means the key is nowhere in the table. */
  lemma AbsentKey<K>(v: View<K>, k: K, hash: K -> nat, probes: nat)
    requires |v| > 0 && Coherent(v, hash, probes)
    ensures Find(v, k, hash, probes).None? <==> Some(k) !in v
    ensures Place(v, k, hash, probes).None? ==> Some(k) !in v
    ensures Some(k) in v ==> Place(v, k, hash, probes) == Find(v, k, hash, probes)
  {
    if Some(k) in v {
      var j :| 0 <= j < |v| && v[j] == Some(k);
      assert Find(v, v[j].value, hash, probes) == Some(j);
      FoundIsPlaced(v, k, Home(hash(k), |v|), probes);
    }
  }

  // ---- where the probes go -------------------------------------------------------------------

  /** The slot of the n-th probe for k. */
  function ProbeAt<K>(v: View<K>, k: K, hash: K -> nat, n: nat): (i: nat)
    requires |v| > 0
    ensures i < |v|
  {
    (hash(k) + n) % |v|
  }

  lemma NextProbe<K>(v: View<K>, k: K, hash: K -> nat, n: nat)
    requires |v| > 0
    ensures ProbeAt(v, k, hash, n) < |v| && Next(ProbeAt(v, k, hash, n), |v|) == ProbeAt(v, k, hash, n + 1)
  {
    Wrap(hash(k) + n, |v|);
  }

  lemma Wrap(x: nat, n: nat)
    requires n > 0
    ensures (x + 1) % n == if x % n + 1 < n then x % n + 1 else 0
  {
    var q, d := x / n, (x + 1) / n;
    if x % n + 1 < n {
      OneRemainder(q, x % n + 1, d, (x + 1) % n, n);
    } else {
      assert (q + 1) * n == q * n + n;
      OneRemainder(q + 1, 0, d, (x + 1) % n, n);
    }
  }

  lemma Difference(q: int, d: int, n: int)
    ensures (q - d) * n == q * n - d * n
  {
  }

  lemma AtLeastOnce(k: int, n: nat)
    ensures k >= 1 ==> k * n >= n
    ensures k <= -1 ==> k * n <= 0 - (n as int)
  {
    Difference(k, 1, n);
    Difference(k, -1, n);
    if k >= 1 { NotNegative(k - 1, n); } else if k <= -1 { NotNegative(-k - 1, n); Difference(0, k + 1, n); }
  }

  lemma NotNegative(k: nat, n: nat)
    ensures k * n >= 0
  {
  }

  lemma OneRemainder(q: int, r: nat, d: int, s: nat, n: nat)
    requires q * n + r == d * n + s && r < n && s < n
    ensures r == s
  {
    Difference(q, d, n);
    AtLeastOnce(q - d, n);
  }

  lemma {:induction false} PlaceFromIs<K>(v: View<K>, k: K, hash: K -> nat, from: nat, probes: nat, n: nat)
    requires |v| > 0 && from <= n <= probes
    requires forall m :: from <= m < n ==> v[ProbeAt(v, k, hash, m)] !in {None, Some(k)}
    ensures PlaceFrom(v, k, ProbeAt(v, k, hash, from), probes - from) ==
            PlaceFrom(v, k, ProbeAt(v, k, hash, n), probes - n)
    decreases n - from
  {
    hide ProbeAt;
    NextProbe(v, k, hash, from);
    NextProbe(v, k, hash, n);
    if from < n {
      assert v[ProbeAt(v, k, hash, from)] !in {None, Some(k)};
      PlaceFromIs(v, k, hash, from + 1, probes, n);
    }
  }

  /** A key goes to the first of its probes, hash, hash + 1 and so on modulo the size, that is free or holds it. */
  lemma PlaceIs<K>(v: View<K>, k: K, hash: K -> nat, probes: nat, n: nat)
    requires |v| > 0 && n < probes
    requires forall m :: 0 <= m < n ==> v[ProbeAt(v, k, hash, m)] !in {None, Some(k)}
    requires v[ProbeAt(v, k, hash, n)] in {None, Some(k)}
    ensures Place(v, k, hash, probes) == Some(ProbeAt(v, k, hash, n))
  {
    PlaceFromIs(v, k, hash, 0, probes, n);
  }

  /** It finds no place exactly when all its probes hold other keys. */
  lemma NoPlaceExactly<K>(v: View<K>, k: K, hash: K -> nat, probes: nat)
    requires |v| > 0
    ensures Place(v, k, hash, probes).None? <==>
            forall n :: 0 <= n < probes ==> v[ProbeAt(v, k, hash, n)] !in {None, Some(k)}
  {
    hide ProbeAt, Home, PlaceFrom;
    if n: nat :| n < probes && v[ProbeAt(v, k, hash, n)] in {None, Some(k)} {
      var m := FirstOpen(v, k, hash, n);
      PlaceIs(v, k, hash, probes, m);
    } else {
      AllProbesTaken(v, k, hash, probes);
    }
  }

  lemma AllProbesTaken<K>(v: View<K>, k: K, hash: K -> nat, probes: nat)
    requires |v| > 0 && forall n :: 0 <= n < probes ==> v[ProbeAt(v, k, hash, n)] !in {None, Some(k)}
    ensures Place(v, k, hash, probes).None?
  {
    PlaceFromIs(v, k, hash, 0, probes, probes);
  }

  lemma {:induction false} FirstOpen<K>(v: View<K>, k: K, hash: K -> nat, n: nat) returns (m: nat)
    requires |v| > 0 && v[ProbeAt(v, k, hash, n)] in {None, Some(k)}
    ensures m <= n && v[ProbeAt(v, k, hash, m)] in {None, Some(k)}
    ensures forall j :: 0 <= j < m ==> v[ProbeAt(v, k, hash, j)] !in {None, Some(k)}
    decreases n
  {
    if j: nat :| j < n && v[ProbeAt(v, k, hash, j)] in {None, Some(k)} {
      m := FirstOpen(v, k, hash, j);
    } else {
      m := n;
    }
  }

  // ---- losing a key --------------------------------------------------------------------------

  /** Emptying a slot can hide keys, but what is still found is found where it was. */
  lemma {:induction false} FoundAfterRemoval<K>(v: View<K>, w: nat, k: K, i: nat, p: nat)
    requires w < |v| && i < |v| && FindFrom(v[w := None], k, i, p).Some?
    ensures FindFrom(v, k, i, p) == FindFrom(v[w := None], k, i, p) && FindFrom(v, k, i, p).value != w
    decreases p
  {
    if v[w := None][i] != Some(k) { FoundAfterRemoval(v, w, k, Next(i, |v|), p - 1); }
  }

  /** A key that finds no place still finds none after another is placed. */
  lemma {:induction false} StillNoPlace<K>(v: View<K>, k: K, w: nat, other: K, i: nat, p: nat)
    requires w < |v| && v[w] in {None, Some(k)} && other != k && i < |v|
    requires PlaceFrom(v, other, i, p).None?
    ensures PlaceFrom(v[w := Some(k)], other, i, p).None?
    decreases p
  {
    if p > 0 { StillNoPlace(v, k, w, other, Next(i, |v|), p - 1); }
  }

  // ---- empty slots ---------------------------------------------------------------------------

  /** The number of probes from slot i to slot e. */
  function Distance(i: nat, e: nat, capacity: nat): (d: nat)
    requires i < capacity && e < capacity
    ensures d < capacity
  {
    if i <= e then e - i else e + capacity - i
  }

  lemma DistanceStep(i: nat, e: nat, capacity: nat)
    requires i < capacity && e < capacity && i != e
    ensures Distance(Next(i, capacity), e, capacity) == Distance(i, e, capacity) - 1
  {
  }

  function Occupied<K>(v: View<K>): (n: nat)
    ensures n <= |v|
  {
    if v == [] then 0 else Occupied(v[..|v| - 1]) + if v[|v| - 1].Some? then 1 else 0
  }

  lemma {:induction false} SomeSlotIsEmpty<K>(v: View<K>) returns (e: nat)
    requires Occupied(v) < |v|
    ensures e < |v| && v[e].None?
  {
    if v[|v| - 1].None? { e := |v| - 1; } else { e := SomeSlotIsEmpty(v[..|v| - 1]); }
  }

  lemma {:induction false} OccupiedUpdate<K>(v: View<K>, w: nat, k: K)
    requires w < |v|
    ensures Occupied(v[w := Some(k)]) == Occupied(v) + if v[w].None? then 1 else 0
  {
    var v', n := v[w := Some(k)], |v| - 1;
    if w == n {
      assert v'[..n] == v[..n];
    } else {
      assert v'[..n] == v[..n][w := Some(k)];
      OccupiedUpdate(v[..n], w, k);
    }
  }

  lemma {:induction false} NoneOccupied<K>(v: View<K>)
    requires forall j :: 0 <= j < |v| ==> v[j].None?
    ensures Occupied(v) == 0
  {
    if v != [] { NoneOccupied(v[..|v| - 1]); }
  }

  lemma OccupiedStep<K>(v: View<K>, j: nat)
    requires j < |v|
    ensures Occupied(v[..j + 1]) == Occupied(v[..j]) + if v[j].Some? then 1 else 0
  {
    assert v[..j + 1][..j] == v[..j];
  }

  lemma {:induction false} OccupiedPrefix<K>(v: View<K>, j: nat)
    requires j <= |v|
    ensures Occupied(v[..j]) <= Occupied(v)
    decreases |v| - j
  {
    if j == |v| {
      assert v[..j] == v;
    } else {
      OccupiedStep(v, j);
      OccupiedPrefix(v, j + 1);
    }
  }
}
