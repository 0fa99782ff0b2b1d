/** Building a family list without duplicates: the engine's linear scans, and the same on a set that
    mirrors the list. */
module FamilyDedup {
  import opened Scopes
  import opened HandleSets

  type Char = int

  /** The engine: what a handle resolves to (never null), and what a character is like. Any graph is
      allowed: cycles, repeated children, handles that resolve to invalid characters. */
  datatype Engine = Engine(
    resolve: Handle -> Char,
    valid: Char -> bool,
    dead: Char -> bool,
    handleOf: Char -> Handle,
    children: Char -> seq<Handle>)

  datatype Filter = Filter(includeAll: bool, deadOnly: bool)

  predicate FilterPasses(f: Filter, dead: bool) {
    f.includeAll || (if f.deadOnly then dead else !dead)
  }

  predicate Passes(e: Engine, f: Filter, c: Char) {
    e.valid(c) && FilterPasses(f, e.dead(c))
  }

  function Character(h: nat): ScopeRef {
    ScopeRef(CHARACTER_KIND, 0, h)
  }

  // ---- the engine's algorithm ----------------------------------------------------------------

  /** The engine's own filter: everyone, or the dead only, or the living only, of the valid ones. */
  predicate EngineAdmits(e: Engine, f: Filter, c: Char) {
    if !e.valid(c) then false else if f.includeAll then true else e.dead(c) == f.deadOnly
  }

  /** The scan: is there a character entry with this handle? */
  predicate Listed(list: seq<ScopeRef>, h: nat) {
    Character(h) in list
  }

  function LinearAdd(list: seq<ScopeRef>, h: Handle): seq<ScopeRef> {
    if Listed(list, h) then list else list + [Character(h)]
  }

  /** The walker's inner loop: the grandchildren through one child. */
  function LinearGrandchildren(e: Engine, f: Filter, list: seq<ScopeRef>, kids: seq<Handle>): seq<ScopeRef>
    decreases |kids|
  {
    if kids == [] then list
    else
      var z := e.resolve(kids[0]);
      var list' := if EngineAdmits(e, f, z) then LinearAdd(list, e.handleOf(z)) else list;
      LinearGrandchildren(e, f, list', kids[1..])
  }

  function LinearChildren(e: Engine, f: Filter, skip: Handle, list: seq<ScopeRef>, kids: seq<Handle>): seq<ScopeRef>
    decreases |kids|
  {
    if kids == [] then list
    else if kids[0] == skip then LinearChildren(e, f, skip, list, kids[1..])
    else
      var y := e.resolve(kids[0]);
      var list' := if EngineAdmits(e, f, y) then LinearAdd(list, e.handleOf(y)) else list;
      LinearChildren(e, f, skip, LinearGrandchildren(e, f, list', e.children(y)), kids[1..])
  }

  function LinearWalk(e: Engine, f: Filter, list: seq<ScopeRef>, x: Char, skip: Handle): seq<ScopeRef> {
    LinearChildren(e, f, skip, list, e.children(x))
  }

  // ---- candidates ----------------------------------------------------------------------------

  /** The handle of c when it passes. */
  function Candidate(e: Engine, f: Filter, c: Char): seq<Handle> {
    if Passes(e, f, c) then [e.handleOf(c)] else []
  }

  function GrandchildCandidates(e: Engine, f: Filter, kids: seq<Handle>): seq<Handle> {
    if kids == [] then [] else Candidate(e, f, e.resolve(kids[0])) + GrandchildCandidates(e, f, kids[1..])
  }

  /** The relatives a walk offers to the list, in order: each child before its own children. */
  function ChildCandidates(e: Engine, f: Filter, skip: Handle, kids: seq<Handle>): seq<Handle> {
    if kids == [] then []
    else if kids[0] == skip then ChildCandidates(e, f, skip, kids[1..])
    else
      var y := e.resolve(kids[0]);
      Candidate(e, f, y) + GrandchildCandidates(e, f, e.children(y)) + ChildCandidates(e, f, skip, kids[1..])
  }

  function Candidates(e: Engine, f: Filter, x: Char, skip: Handle): seq<Handle> {
    ChildCandidates(e, f, skip, e.children(x))
  }

  /** Character c is a child of x other than the skipped one, or a child of such a child. */
  ghost predicate Relative(e: Engine, x: Char, skip: Handle, c: Char) {
    exists k :: k in e.children(x) && k != skip && (c == e.resolve(k) || ChildOf(e, e.resolve(k), c))
  }

  ghost predicate ChildOf(e: Engine, y: Char, c: Char) {
    exists g :: g in e.children(y) && c == e.resolve(g)
  }

  /** A relative the walk is to offer under this handle. */
  ghost predicate Offers(e: Engine, f: Filter, c: Char, h: Handle) {
    e.valid(c) && (f.includeAll || e.dead(c) == f.deadOnly) && e.handleOf(c) == h
  }

  lemma {:induction false} GrandchildrenExactly(e: Engine, f: Filter, kids: seq<Handle>, h: Handle)
    ensures h in GrandchildCandidates(e, f, kids) <==> exists g :: g in kids && Offers(e, f, e.resolve(g), h)
  {
    if kids != [] {
      GrandchildrenExactly(e, f, kids[1..], h);
      assert kids == [kids[0]] + kids[1..];
    }
  }

  /** A child offers a handle, itself or through one of its own children. */
  ghost predicate OffersThrough(e: Engine, f: Filter, y: Char, h: Handle) {
    Offers(e, f, y, h) || exists g :: g in e.children(y) && Offers(e, f, e.resolve(g), h)
  }

  lemma {:induction false} ChildrenExactly(e: Engine, f: Filter, skip: Handle, kids: seq<Handle>, h: Handle)
    ensures h in ChildCandidates(e, f, skip, kids) <==>
            exists k :: k in kids && k != skip && OffersThrough(e, f, e.resolve(k), h)
  {
    hide GrandchildCandidates;
    if kids != [] {
      ChildrenExactly(e, f, skip, kids[1..], h);
      assert kids == [kids[0]] + kids[1..];
      GrandchildrenExactly(e, f, e.children(e.resolve(kids[0])), h);
    }
  }

  /** A walk offers a handle exactly when a relative that the filter admits carries it. */
  lemma RelativesExactly(e: Engine, f: Filter, x: Char, skip: Handle, h: Handle)
    ensures h in Candidates(e, f, x, skip) <==> exists c :: Relative(e, x, skip, c) && Offers(e, f, c, h)
  {
    hide ChildCandidates, Offers;
    ChildrenExactly(e, f, skip, e.children(x), h);
    if k :| k in e.children(x) && k != skip && OffersThrough(e, f, e.resolve(k), h) {
      var y := e.resolve(k);
      if Offers(e, f, y, h) {
        assert Relative(e, x, skip, y);
      } else {
        var g :| g in e.children(y) && Offers(e, f, e.resolve(g), h);
        assert ChildOf(e, y, e.resolve(g)) && Relative(e, x, skip, e.resolve(g));
      }
    }
  }

  function LinearFold(list: seq<ScopeRef>, cands: seq<Handle>): seq<ScopeRef>
    decreases |cands|
  {
    if cands == [] then list else LinearFold(LinearAdd(list, cands[0]), cands[1..])
  }

  lemma {:induction false} LinearFoldAppend(list: seq<ScopeRef>, a: seq<Handle>, b: seq<Handle>)
    ensures LinearFold(list, a + b) == LinearFold(LinearFold(list, a), b)
    decreases |a|
  {
    if a == [] {
      assert a + b == b;
    } else {
      assert (a + b)[1..] == a[1..] + b;
      LinearFoldAppend(LinearAdd(list, a[0]), a[1..], b);
    }
  }

  lemma {:induction false} GrandchildrenFold(e: Engine, f: Filter, list: seq<ScopeRef>, kids: seq<Handle>)
    ensures LinearGrandchildren(e, f, list, kids) == LinearFold(list, GrandchildCandidates(e, f, kids))
    decreases |kids|
  {
    if kids != [] {
      var c := Candidate(e, f, e.resolve(kids[0]));
      LinearFoldAppend(list, c, GrandchildCandidates(e, f, kids[1..]));
      GrandchildrenFold(e, f, LinearFold(list, c), kids[1..]);
    }
  }

  lemma {:induction false} ChildrenFold(e: Engine, f: Filter, skip: Handle, list: seq<ScopeRef>, kids: seq<Handle>)
    ensures LinearChildren(e, f, skip, list, kids) == LinearFold(list, ChildCandidates(e, f, skip, kids))
    decreases |kids|
  {
    if kids != [] {
      if kids[0] == skip {
        ChildrenFold(e, f, skip, list, kids[1..]);
      } else {
        var y := e.resolve(kids[0]);
        var c, gs := Candidate(e, f, y), GrandchildCandidates(e, f, e.children(y));
        var rest := ChildCandidates(e, f, skip, kids[1..]);
        LinearFoldAppend(list, c, gs);
        LinearFoldAppend(list, c + gs, rest);
        GrandchildrenFold(e, f, LinearFold(list, c), e.children(y));
        ChildrenFold(e, f, skip, LinearFold(list, c + gs), kids[1..]);
      }
    }
  }

  // ---- what the engine's list is -------------------------------------------------------------

  /** The first occurrences of the handles not seen yet. */
  function FirstNew(cands: seq<Handle>, seen: set<nat>): seq<Handle> {
    if cands == [] then []
    else if cands[0] in seen then FirstNew(cands[1..], seen)
    else [cands[0]] + FirstNew(cands[1..], seen + {cands[0]})
  }

  ghost predicate NoDuplicates(hs: seq<Handle>) {
    forall i, j :: 0 <= i < j < |hs| ==> hs[i] != hs[j]
  }

  lemma {:induction false} FirstNewIsDuplicateFree(cands: seq<Handle>, seen: set<nat>)
    ensures forall h :: h in FirstNew(cands, seen) <==> h in cands && h !in seen
    ensures NoDuplicates(FirstNew(cands, seen))
  {
    if cands != [] {
      assert forall h :: h in cands <==> h == cands[0] || h in cands[1..];
      if cands[0] in seen {
        FirstNewIsDuplicateFree(cands[1..], seen);
      } else {
        FirstNewIsDuplicateFree(cands[1..], seen + {cands[0]});
        var r, t := FirstNew(cands, seen), FirstNew(cands[1..], seen + {cands[0]});
        assert r == [cands[0]] + t && cands[0] !in t;
        forall i, j | 0 <= i < j < |r| ensures r[i] != r[j] {
          assert r[j] == t[j - 1] && t[j - 1] in t;
        }
      }
    }
  }

  function Characters(hs: seq<Handle>): (r: seq<ScopeRef>)
    ensures |r| == |hs| && forall i :: 0 <= i < |hs| ==> r[i] == Character(hs[i])
  {
    seq(|hs|, i requires 0 <= i < |hs| => Character(hs[i]))
  }

  ghost function ListedHandles(list: seq<ScopeRef>): set<nat> {
    set r | r in list && r == Character(r.handle) :: r.handle
  }

  lemma ListedIsMembership(list: seq<ScopeRef>, h: nat)
    ensures Listed(list, h) <==> h in ListedHandles(list)
    ensures ListedHandles(list + [Character(h)]) == ListedHandles(list) + {h}
  {
    if Listed(list, h) { assert Character(h) in list && Character(h) == Character(Character(h).handle); }
    var longer := list + [Character(h)];
    forall x | x in ListedHandles(list) + {h} ensures x in ListedHandles(longer) {
      assert Character(x) in longer;
    }
  }

  /** The engine's list is the old list followed by the first occurrences of the candidates not in it. */
  lemma {:induction false} LinearFoldIsFirstNew(list: seq<ScopeRef>, cands: seq<Handle>)
    ensures LinearFold(list, cands) == list + Characters(FirstNew(cands, ListedHandles(list)))
    decreases |cands|
  {
    if cands != [] {
      var h, seen := cands[0], ListedHandles(list);
      ListedIsMembership(list, h);
      LinearFoldIsFirstNew(LinearAdd(list, h), cands[1..]);
      if h !in seen {
        var more := FirstNew(cands[1..], seen + {h});
        assert Characters([h] + more) == [Character(h)] + Characters(more);
      }
    }
  }

  // ---- the set-based form --------------------------------------------------------------------

  datatype Pair = Pair(list: seq<ScopeRef>, handles: set<nat>)

  /** The set after a rebuild from the list: the character handles that fit 32 bits and are valid. */
  ghost function Mirrored(list: seq<ScopeRef>): set<nat> {
    set h | h in ListedHandles(list) && h < INVALID_HANDLE
  }

  function FastAdd(p: Pair, h: Handle): Pair {
    if h in p.handles then p
    else Pair(p.list + [Character(h)], if h == INVALID_HANDLE then p.handles else p.handles + {h})
  }

  function FastFold(p: Pair, cands: seq<Handle>): Pair
    decreases |cands|
  {
    if cands == [] then p else FastFold(FastAdd(p, cands[0]), cands[1..])
  }

  lemma {:induction false} FastFoldAppend(p: Pair, a: seq<Handle>, b: seq<Handle>)
    ensures FastFold(p, a + b) == FastFold(FastFold(p, a), b)
    decreases |a|
  {
    if a == [] {
      assert a + b == b;
    } else {
      assert (a + b)[1..] == a[1..] + b;
      FastFoldAppend(FastAdd(p, a[0]), a[1..], b);
    }
  }

  /** How often a handle is offered. */
  function Count(hs: seq<Handle>, h: Handle): nat {
    if hs == [] then 0 else (if hs[0] == h then 1 else 0) + Count(hs[1..], h)
  }

  /** A synced set stays synced, and agrees with the scan on every valid handle. */
  lemma FastAddSynced(p: Pair, h: Handle)
    requires p.handles == Mirrored(p.list)
    ensures FastAdd(p, h).handles == Mirrored(FastAdd(p, h).list)
    ensures FastAdd(p, h).list == if h == INVALID_HANDLE then p.list + [Character(h)] else LinearAdd(p.list, h)
  {
    ListedIsMembership(p.list, h);
  }

  /** One add leaves the engine's list, unless the invalid handle is offered when it is listed. */
  lemma FastAddExact(p: Pair, h: Handle)
    requires p.handles == Mirrored(p.list)
    ensures FastAdd(p, h).list == LinearAdd(p.list, h) <==> !(h == INVALID_HANDLE && Listed(p.list, h))
  {
    FastAddSynced(p, h);
  }

  lemma {:induction false} FastFoldSynced(p: Pair, cands: seq<Handle>)
    requires p.handles == Mirrored(p.list)
    ensures FastFold(p, cands).handles == Mirrored(FastFold(p, cands).list)
    decreases |cands|
  {
    if cands != [] {
      FastAddSynced(p, cands[0]);
      FastFoldSynced(FastAdd(p, cands[0]), cands[1..]);
    }
  }

  /** The invalid handle may be offered once, and only to a list that lacks it. */
  predicate InvalidOfferedAtMostOnce(list: seq<ScopeRef>, cands: seq<Handle>) {
    Count(cands, INVALID_HANDLE) <= if Listed(list, INVALID_HANDLE) then 0 else 1
  }

  lemma {:induction false} FoldsAgree(p: Pair, cands: seq<Handle>)
    requires p.handles == Mirrored(p.list) && InvalidOfferedAtMostOnce(p.list, cands)
    ensures FastFold(p, cands).list == LinearFold(p.list, cands)
    decreases |cands|
  {
    if cands != [] {
      FastAddSynced(p, cands[0]);
      ListedIsMembership(p.list, cands[0]);
      ListedIsMembership(p.list, INVALID_HANDLE);
      ListedIsMembership(FastAdd(p, cands[0]).list, INVALID_HANDLE);
      FoldsAgree(FastAdd(p, cands[0]), cands[1..]);
    }
  }

  /** Every further offer of the invalid handle makes the fast list one entry longer. */
  lemma {:induction false} FoldLengths(p: Pair, list: seq<ScopeRef>, cands: seq<Handle>)
    requires p.handles == Mirrored(p.list) && ListedHandles(p.list) == ListedHandles(list)
    ensures var n := Count(cands, INVALID_HANDLE);
            |FastFold(p, cands).list| - |p.list| ==
              |LinearFold(list, cands)| - |list| + (if n > 0 && !Listed(list, INVALID_HANDLE) then n - 1 else n)
    decreases |cands|
  {
    if cands != [] {
      var h := cands[0];
      var p', list' := FastAdd(p, h), LinearAdd(list, h);
      FastAddSynced(p, h);
      ListedIsMembership(p.list, h);
      ListedIsMembership(list, h);
      ListedIsMembership(list, INVALID_HANDLE);
      ListedIsMembership(list', INVALID_HANDLE);
      assert ListedHandles(p'.list) == ListedHandles(list') by {
        if h in ListedHandles(list) { assert ListedHandles(list) + {h} == ListedHandles(list); }
      }
      FoldLengths(p', list', cands[1..]);
    }
  }

  /** Any sequence of unique-adds on a synced set leaves the engine's list exactly when the invalid
      handle, which no valid character carries, is offered at most once to a list that lacks it. */
  lemma FoldExact(p: Pair, cands: seq<Handle>)
    requires p.handles == Mirrored(p.list)
    ensures FastFold(p, cands).list == LinearFold(p.list, cands) <==> InvalidOfferedAtMostOnce(p.list, cands)
  {
    if InvalidOfferedAtMostOnce(p.list, cands) {
      FoldsAgree(p, cands);
    } else {
      FoldLengths(p, p.list, cands);
    }
  }

  /** The walk, on any family graph, filter, skipped handle and starting list: the engine's list is the
      old list followed by the first occurrences of the passing relatives not in it, and the set-based
      walk leaves that same list exactly when the invalid handle is not offered twice. */
  lemma WalkExact(e: Engine, f: Filter, p: Pair, x: Char, skip: Handle)
    requires p.handles == Mirrored(p.list)
    ensures LinearWalk(e, f, p.list, x, skip) ==
            p.list + Characters(FirstNew(Candidates(e, f, x, skip), ListedHandles(p.list)))
    ensures FastFold(p, Candidates(e, f, x, skip)).list == LinearWalk(e, f, p.list, x, skip)
            <==> InvalidOfferedAtMostOnce(p.list, Candidates(e, f, x, skip))
    ensures FastFold(p, Candidates(e, f, x, skip)).handles == Mirrored(FastFold(p, Candidates(e, f, x, skip)).list)
  {
    var cands := Candidates(e, f, x, skip);
    ChildrenFold(e, f, skip, p.list, e.children(x));
    LinearFoldIsFirstNew(p.list, cands);
    FoldExact(p, cands);
    FastFoldSynced(p, cands);
  }

  /** The engine's promise: valid characters carry valid handles. */
  ghost predicate ValidHandles(e: Engine) {
    forall c :: e.valid(c) ==> e.handleOf(c) != INVALID_HANDLE
  }

  lemma {:induction false} GrandchildrenOfferValid(e: Engine, f: Filter, kids: seq<Handle>)
    requires ValidHandles(e)
    ensures INVALID_HANDLE !in GrandchildCandidates(e, f, kids)
  {
    if kids != [] { GrandchildrenOfferValid(e, f, kids[1..]); }
  }

  lemma {:induction false} ChildrenOfferValid(e: Engine, f: Filter, skip: Handle, kids: seq<Handle>)
    requires ValidHandles(e)
    ensures INVALID_HANDLE !in ChildCandidates(e, f, skip, kids)
  {
    if kids != [] {
      ChildrenOfferValid(e, f, skip, kids[1..]);
      if kids[0] != skip { GrandchildrenOfferValid(e, f, e.children(e.resolve(kids[0]))); }
    }
  }

  lemma {:induction false} CountAbsent(hs: seq<Handle>, h: Handle)
    requires h !in hs
    ensures Count(hs, h) == 0
  {
    if hs != [] {
      assert forall x :: x in hs[1..] ==> x in hs;
      CountAbsent(hs[1..], h);
    }
  }

  /** So with the promise kept every walk is the engine's walk. */
  lemma WalkNeverOffersInvalid(e: Engine, f: Filter, list: seq<ScopeRef>, x: Char, skip: Handle)
    requires ValidHandles(e)
    ensures InvalidOfferedAtMostOnce(list, Candidates(e, f, x, skip))
  {
    ChildrenOfferValid(e, f, skip, e.children(x));
    CountAbsent(Candidates(e, f, x, skip), INVALID_HANDLE);
  }

  // ---- the operations on the objects ---------------------------------------------------------

  /** The list and the set as the pair the functions work on. */
  ghost function PairOf(list: ScopeList, s: HandleSet): Pair
    reads list, s, s.slots
  {
    Pair(list.data, s.Contents())
  }

  predicate Matchable(r: ScopeRef) {
    r.kind == CHARACTER_KIND && r.sub == 0 && r.handle < INVALID_HANDLE
  }

  lemma MirroredStep(list: seq<ScopeRef>, i: nat)
    requires i < |list|
    ensures Mirrored(list[..i + 1]) == Mirrored(list[..i]) + if Matchable(list[i]) then {list[i].handle} else {}
  {
    var a, b := list[..i], list[..i + 1];
    assert b == a + [list[i]];
    forall h ensures Character(h) in b <==> Character(h) in a || Character(h) == list[i] {}
    forall h ensures h in ListedHandles(a) <==> Character(h) in a { ListedIsMembership(a, h); }
    forall h ensures h in ListedHandles(b) <==> Character(h) in b { ListedIsMembership(b, h); }
  }

  /** Rebuilds the set from the list. */
  method SyncSetFromList(s: HandleSet, list: ScopeList)
    requires s.Valid()
    modifies s, s.slots
    ensures s.Valid() && (s.slots == old(s.slots) || fresh(s.slots))
    ensures s.Contents() == Mirrored(list.data)
  {
    hide Mirrored;
    s.Clear();
    var d := list.data;
    MirroredEmpty(d);
    for i := 0 to |d|
      invariant s.Valid() && (s.slots == old(s.slots) || fresh(s.slots))
      invariant s.Contents() == Mirrored(d[..i])
    {
      MirroredStep(d, i);
      if d[i].kind == CHARACTER_KIND && d[i].sub == 0 && d[i].handle < INVALID_HANDLE {
        var added := s.Insert(d[i].handle);
      }
    }
    assert d[..|d|] == d;
  }

  lemma MirroredEmpty(list: seq<ScopeRef>)
    ensures Mirrored(list[..0]) == {}
  {
  }

  method AddUnique(s: HandleSet, list: ScopeList, h: Handle)
    requires s.Valid()
    modifies s, s.slots, list
    ensures s.Valid() && (s.slots == old(s.slots) || fresh(s.slots))
    ensures PairOf(list, s) == FastAdd(old(PairOf(list, s)), h)
    ensures list.data == old(list.data) ==> list.buffer == old(list.buffer)
  {
    var found := s.Contains(h);
    if found { return; }
    list.PushBack(Character(h));
    var added := s.Insert(h);
  }

  /** The walker's two nested loops. */
  method Walk(s: HandleSet, list: ScopeList, e: Engine, f: Filter, x: Char, skip: Handle)
    requires s.Valid()
    modifies s, s.slots, list
    ensures s.Valid() && (s.slots == old(s.slots) || fresh(s.slots))
    ensures PairOf(list, s) == FastFold(old(PairOf(list, s)), Candidates(e, f, x, skip))
  {
    hide HandleSet.Valid, HandleSet.Contents, FastFold, ChildCandidates;
    var kids := e.children(x);
    ghost var start := PairOf(list, s);
    ghost var done: seq<Handle> := [];
    FastFoldNone(start);
    ChildrenFrom(e, f, skip, kids, 0, done);
    for i := 0 to |kids|
      invariant s.Valid() && (s.slots == old(s.slots) || fresh(s.slots))
      invariant PairOf(list, s) == FastFold(start, done)
      invariant done + ChildCandidates(e, f, skip, kids[i..]) == Candidates(e, f, x, skip)
    {
      var h := kids[i];
      ChildrenFrom(e, f, skip, kids, i, done);
      if h == skip { continue; }
      done := WalkChild(s, list, e, f, e.resolve(h), start, done);
    }
    ChildrenFrom(e, f, skip, kids, |kids|, done);
  }

  lemma FastFoldNone(p: Pair)
    ensures FastFold(p, []) == p
  {
  }

  lemma ChildrenFrom(e: Engine, f: Filter, skip: Handle, kids: seq<Handle>, i: nat, done: seq<Handle>)
    requires i <= |kids|
    ensures kids[0..] == kids && done + [] == done
    ensures [] + ChildCandidates(e, f, skip, kids) == ChildCandidates(e, f, skip, kids)
    ensures i == |kids| ==> ChildCandidates(e, f, skip, kids[i..]) == []
    ensures i < |kids| ==>
              var y, rest := e.resolve(kids[i]), ChildCandidates(e, f, skip, kids[i + 1..]);
              done + ChildCandidates(e, f, skip, kids[i..]) ==
                if kids[i] == skip then done + rest
                else done + (Candidate(e, f, y) + GrandchildCandidates(e, f, e.children(y))) + rest
  {
    hide GrandchildCandidates;
    if i < |kids| { assert kids[i..][1..] == kids[i + 1..]; }
  }

  /** One round of the outer loop: the child, then its own children. */
  method WalkChild(s: HandleSet, list: ScopeList, e: Engine, f: Filter, y: Char, ghost start: Pair,
                   ghost done: seq<Handle>)
      returns (ghost done': seq<Handle>)
    requires s.Valid() && PairOf(list, s) == FastFold(start, done)
    modifies s, s.slots, list
    ensures s.Valid() && (s.slots == old(s.slots) || fresh(s.slots))
    ensures done' == done + (Candidate(e, f, y) + GrandchildCandidates(e, f, e.children(y)))
    ensures PairOf(list, s) == FastFold(start, done')
  {
    hide HandleSet.Valid, HandleSet.Contents, FastFold, GrandchildCandidates;
    done' := done;
    if e.valid(y) && FilterPasses(f, e.dead(y)) {
      FastFoldSnoc(start, done', e.handleOf(y));
      AddUnique(s, list, e.handleOf(y));
      done' := done' + [e.handleOf(y)];
    }
    assert done' == done + Candidate(e, f, y);
    done' := WalkGrandchildren(s, list, e, f, e.children(y), start, done');
  }

  method WalkGrandchildren(s: HandleSet, list: ScopeList, e: Engine, f: Filter, kids: seq<Handle>,
                           ghost start: Pair, ghost done: seq<Handle>)
      returns (ghost done': seq<Handle>)
    requires s.Valid() && PairOf(list, s) == FastFold(start, done)
    modifies s, s.slots, list
    ensures s.Valid() && (s.slots == old(s.slots) || fresh(s.slots))
    ensures done' == done + GrandchildCandidates(e, f, kids)
    ensures PairOf(list, s) == FastFold(start, done')
  {
    hide HandleSet.Valid, HandleSet.Contents, FastFold, GrandchildCandidates;
    done' := done;
    GrandchildrenFrom(e, f, kids, 0, done);
    for j := 0 to |kids|
      invariant s.Valid() && (s.slots == old(s.slots) || fresh(s.slots))
      invariant PairOf(list, s) == FastFold(start, done')
      invariant done' + GrandchildCandidates(e, f, kids[j..]) == done + GrandchildCandidates(e, f, kids)
    {
      GrandchildrenFrom(e, f, kids, j, done');
      var z := e.resolve(kids[j]);
      if !e.valid(z) { continue; }
      if !FilterPasses(f, e.dead(z)) { continue; }
      var hz := e.handleOf(z);
      FastFoldSnoc(start, done', hz);
      done' := done' + [hz];
      var found := s.Contains(hz);
      if found { continue; }
      list.PushBack(Character(hz));
      var added := s.Insert(hz);
    }
    GrandchildrenFrom(e, f, kids, |kids|, done');
  }

  lemma GrandchildrenFrom(e: Engine, f: Filter, kids: seq<Handle>, j: nat, done: seq<Handle>)
    requires j <= |kids|
    ensures kids[0..] == kids && (j == |kids| ==> GrandchildCandidates(e, f, kids[j..]) == [])
    ensures j < |kids| ==>
              var z := e.resolve(kids[j]);
              GrandchildCandidates(e, f, kids[j..]) == Candidate(e, f, z) + GrandchildCandidates(e, f, kids[j + 1..]) &&
              done + GrandchildCandidates(e, f, kids[j..]) ==
                done + Candidate(e, f, z) + GrandchildCandidates(e, f, kids[j + 1..])
  {
    if j < |kids| { assert kids[j..][1..] == kids[j + 1..]; }
  }

  lemma FastFoldSnoc(p: Pair, cands: seq<Handle>, h: Handle)
    ensures FastFold(p, cands + [h]) == FastAdd(FastFold(p, cands), h)
  {
    FastFoldAppend(p, cands, [h]);
  }
}
