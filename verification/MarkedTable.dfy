/** Open-addressed tables of numbers in which one number marks the empty slots, kept at most half full. */
module MarkedTables {
  import opened Wrappers
  import opened Probing

  /** The table as a view. */
  function ViewOf(s: seq<nat>, empty: nat): (v: View<nat>)
    ensures |v| == |s|
    ensures forall j :: 0 <= j < |s| ==> v[j] == if s[j] == empty then None else Some(s[j])
  {
    seq(|s|, j requires 0 <= j < |s| => if s[j] == empty then None else Some(s[j]))
  }

  /** The numbers in the slots. */
  ghost function Elements(s: seq<nat>, empty: nat): set<nat> {
    set h | h in s && h != empty
  }

  predicate PowerOfTwo(n: nat) {
    n == 1 || (n > 0 && n % 2 == 0 && PowerOfTwo(n / 2))
  }

  lemma FindStart(s: seq<nat>, empty: nat, hash: nat -> nat, h: nat)
    requires |s| > 0 && h != empty && Probing.Coherent(ViewOf(s, empty), hash, |s|)
    ensures h in Elements(s, empty) <==> FindFrom(ViewOf(s, empty), h, Home(hash(h), |s|), |s|).Some?
  {
    AbsentKey(ViewOf(s, empty), h, hash, |s|);
    InTable(s, empty, h);
  }

  lemma NotAnElement(s: seq<nat>, empty: nat)
    ensures empty !in Elements(s, empty)
  {
  }

  lemma SlotHolds(s: seq<nat>, empty: nat, i: nat)
    requires i < |s| && s[i] != empty
    ensures s[i] in Elements(s, empty)
  {
  }

  /** Filling the empty slot chosen for h adds h, which was not there. */
  lemma FillSlot(s: seq<nat>, empty: nat, hash: nat -> nat, h: nat, i: nat)
    requires i < |s| && s[i] == empty && h != empty
    requires Probing.Coherent(ViewOf(s, empty), hash, |s|) && Place(ViewOf(s, empty), h, hash, |s|) == Some(i)
    ensures var s' := s[i := h];
            && Probing.Coherent(ViewOf(s', empty), hash, |s|)
            && Occupied(ViewOf(s', empty)) == Occupied(ViewOf(s, empty)) + 1
            && Elements(s', empty) == Elements(s, empty) + {h} && |Elements(s', empty)| == |Elements(s, empty)| + 1
    ensures h !in Elements(s, empty)
  {
    hide Occupied;
    AbsentKey(ViewOf(s, empty), h, hash, |s|);
    InTable(s, empty, h);
    PlaceKeepsCoherent(ViewOf(s, empty), h, hash, |s|);
    OccupiedUpdate(ViewOf(s, empty), i, h);
    ElementsUpdate(s, empty, i, h);
    assert ViewOf(s[i := h], empty) == ViewOf(s, empty)[i := Some(h)];
  }

  lemma InTable(s: seq<nat>, empty: nat, h: nat)
    requires h != empty
    ensures h in Elements(s, empty) <==> Some(h) in ViewOf(s, empty)
  {
    if h in s {
      var j :| 0 <= j < |s| && s[j] == h;
      assert ViewOf(s, empty)[j] == Some(h);
    }
  }

  lemma ElementsUpdate(s: seq<nat>, empty: nat, i: nat, h: nat)
    requires i < |s| && s[i] == empty && h != empty
    ensures Elements(s[i := h], empty) == Elements(s, empty) + {h}
  {
    var s' := s[i := h];
    forall x | x in Elements(s, empty) + {h} ensures x in s' {
      if x == h {
        assert s'[i] == h;
      } else {
        var j :| 0 <= j < |s| && s[j] == x;
        assert s'[j] == x;
      }
    }
  }

  /** The capacity after growing is a power of two, at most four times the count that made it grow. */
  lemma Doubled(n: nat, count: nat)
    requires PowerOfTwo(n) && 2 * (count + 1) > n
    ensures PowerOfTwo(2 * n) && (2 * n <= 2 || 2 * n <= 4 * count)
  {
  }

  lemma FreshTable(s: seq<nat>, empty: nat, hash: nat -> nat)
    requires |s| > 0 && forall j :: 0 <= j < |s| ==> s[j] == empty
    ensures Elements(s, empty) == {} && Occupied(ViewOf(s, empty)) == 0 && Probing.Coherent(ViewOf(s, empty), hash, |s|)
  {
    NoneOccupied(ViewOf(s, empty));
  }

  lemma NoPrefix(s: seq<nat>, empty: nat)
    ensures Elements(s[..0], empty) == {} && Occupied(ViewOf(s, empty)[..0]) == 0
  {
  }

  lemma ElementsStep(s: seq<nat>, empty: nat, j: nat)
    requires j < |s|
    ensures Elements(s[..j + 1], empty) == Elements(s[..j], empty) + if s[j] == empty then {} else {s[j]}
  {
    assert s[..j + 1] == s[..j] + [s[j]];
  }

  lemma NotYetSeen(s: seq<nat>, empty: nat, hash: nat -> nat, j: nat)
    requires j < |s| && Probing.Coherent(ViewOf(s, empty), hash, |s|)
    ensures s[j] !in Elements(s[..j], empty)
  {
    hide Probing.Coherent;
    if s[j] != empty {
      forall i | 0 <= i < j ensures s[i] != s[j] { DistinctKeys(ViewOf(s, empty), hash, |s|, j, i); }
    }
  }

  /** The next slot of a coherent table holds a number that the slots before do not. */
  lemma Prefix(s: seq<nat>, empty: nat, hash: nat -> nat, j: nat)
    requires j < |s| && Probing.Coherent(ViewOf(s, empty), hash, |s|)
    ensures var v := ViewOf(s, empty);
            Occupied(v[..j]) <= j && Occupied(v[..j + 1]) <= Occupied(v) &&
            Occupied(v[..j + 1]) == Occupied(v[..j]) + if s[j] == empty then 0 else 1
    ensures Elements(s[..j + 1], empty) == Elements(s[..j], empty) + if s[j] == empty then {} else {s[j]}
    ensures s[j] !in Elements(s[..j], empty)
  {
    hide Occupied, Elements, Probing.Coherent;
    var v := ViewOf(s, empty);
    OccupiedStep(v, j);
    OccupiedPrefix(v, j + 1);
    ElementsStep(s, empty, j);
    NotYetSeen(s, empty, hash, j);
  }
}
