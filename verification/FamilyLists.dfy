/** The family-lists plugin: one mirror set per thread, trusted for a list only while the list's
    fingerprint (object, buffer, count, last handle) is the one noted after the thread's last push. */
module FamilyLists {
  import opened Wrappers
  import opened Scopes
  import opened HandleSets
  import opened FamilyDedup

  // ---- values --------------------------------------------------------------------------------

  /** A list as the mirror sees it. */
  datatype ListValue = ListValue(data: seq<ScopeRef>, buffer: nat)

  /** The mirror: the list it follows, that list's fingerprint, and the handles. */
  datatype MirrorValue = MirrorValue(list: Option<nat>, buffer: nat, count: int, lastHandle: nat, handles: set<nat>)

  const FRESH_MIRROR := MirrorValue(None, 0, -1, 0, {})

  function LastHandle(data: seq<ScopeRef>): nat {
    if data == [] then 0 else data[|data| - 1].handle
  }

  /** Sync's early return: the fingerprint of list id, with value l, is the one noted. */
  predicate Matches(m: MirrorValue, id: nat, l: ListValue) {
    && m.list == Some(id) && m.buffer == l.buffer && m.count == |l.data|
    && (l.data == [] || LastHandle(l.data) == m.lastHandle)
  }

  /** The set can be trusted for the list. */
  ghost predicate Trusted(m: MirrorValue, id: nat, l: ListValue) {
    Matches(m, id, l) ==> m.handles == Mirrored(l.data)
  }

  /** The handles a hooked operation works with. */
  ghost function Synced(m: MirrorValue, id: nat, l: ListValue): set<nat> {
    if Matches(m, id, l) then m.handles else Mirrored(l.data)
  }

  /** The mirror noted after a hooked operation. */
  function Noted(id: nat, l: ListValue, handles: set<nat>): MirrorValue {
    MirrorValue(Some(id), l.buffer, |l.data|, LastHandle(l.data), handles)
  }

  // ---- runs ----------------------------------------------------------------------------------

  /** Hooked: an add-unique (one candidate) or a walk (its candidates) on a list; pushing may move the
      list to another buffer. Outside: anything else changes a list to a value of its choice. */
  datatype Action =
    | Hooked(id: nat, cands: seq<Handle>, buffer: nat)
    | Outside(id: nat, value: ListValue)

  /** left is, for the statements, the list the last hooked operation worked on and what it left there. */
  datatype World = World(lists: map<nat, ListValue>, mirror: MirrorValue, left: Option<(nat, ListValue)>)

  const START := World(map[], FRESH_MIRROR, None)

  function ListOf(lists: map<nat, ListValue>, id: nat): ListValue {
    if id in lists then lists[id] else ListValue([], 0)
  }

  ghost function Step(w: World, a: Action): World {
    match a
    case Hooked(id, cands, buffer) =>
      var l := ListOf(w.lists, id);
      var p := FastFold(Pair(l.data, Synced(w.mirror, id, l)), cands);
      var l' := ListValue(p.list, if p.list == l.data then l.buffer else buffer);
      World(w.lists[id := l'], Noted(id, l', p.handles), Some((id, l')))
    case Outside(id, value) => w.(lists := w.lists[id := value])
  }

  /** The same action under the engine's own algorithm. */
  function EngineStep(lists: map<nat, seq<ScopeRef>>, a: Action): map<nat, seq<ScopeRef>> {
    match a
    case Hooked(id, cands, _) => lists[id := LinearFold(if id in lists then lists[id] else [], cands)]
    case Outside(id, value) => lists[id := value.data]
  }

  ghost predicate SameLists(w: World, lists: map<nat, seq<ScopeRef>>) {
    w.lists.Keys == lists.Keys && forall id :: id in lists ==> w.lists[id].data == lists[id]
  }

  /** The values cannot be told apart by buffer, count and last handle. */
  predicate LookAlike(a: ListValue, b: ListValue) {
    && a.buffer == b.buffer && |a.data| == |b.data|
    && (a.data == [] || a.data[|a.data| - 1].handle == b.data[|b.data| - 1].handle)
  }

  /** What a step must not do: an outside action must not give the list that the last hooked operation
      worked on the same buffer, count and last handle that operation left, but other handles; and a hooked
      action offers the invalid handle at most once. */
  ghost predicate Fair(w: World, a: Action) {
    match a
    case Hooked(id, cands, _) => InvalidOfferedAtMostOnce(ListOf(w.lists, id).data, cands)
    case Outside(id, value) =>
      w.left.Some? && w.left.value.0 == id && LookAlike(value, w.left.value.1) ==>
        Mirrored(value.data) == Mirrored(w.left.value.1.data)
  }

  /** In particular an outside action may change any other list, and this one in any way that shows. */
  lemma ShowingIsFair(w: World, id: nat, value: ListValue)
    requires w.left.Some? && w.left.value.0 == id ==>
               var l := w.left.value.1;
               || value.buffer != l.buffer || |value.data| != |l.data|
               || (value.data != [] && l.data != [] && LastHandle(value.data) != LastHandle(l.data))
    ensures Fair(w, Outside(id, value))
  {
    hide Mirrored;
  }

  /** The mirror is what was noted of what the last hooked operation left, and its list can be trusted. */
  ghost predicate MirrorOk(w: World) {
    && (if w.left.None? then w.mirror == FRESH_MIRROR
        else var (id, l) := w.left.value; w.mirror == Noted(id, l, Mirrored(l.data)))
    && forall id :: Trusted(w.mirror, id, ListOf(w.lists, id))
  }

  ghost predicate FairRun(w: World, actions: seq<Action>)
    decreases |actions|
  {
    actions == [] || (Fair(w, actions[0]) && FairRun(Step(w, actions[0]), actions[1..]))
  }

  ghost function Run(w: World, actions: seq<Action>): World
    decreases |actions|
  {
    if actions == [] then w else Run(Step(w, actions[0]), actions[1..])
  }

  function EngineRun(lists: map<nat, seq<ScopeRef>>, actions: seq<Action>): map<nat, seq<ScopeRef>>
    decreases |actions|
  {
    if actions == [] then lists else EngineRun(EngineStep(lists, actions[0]), actions[1..])
  }

  lemma StepKeepsMirror(w: World, lists: map<nat, seq<ScopeRef>>, a: Action)
    requires MirrorOk(w) && SameLists(w, lists) && Fair(w, a)
    ensures MirrorOk(Step(w, a)) && SameLists(Step(w, a), EngineStep(lists, a))
  {
    hide Mirrored, FastFold, LinearFold;
    if a.Hooked? {
      var l := ListOf(w.lists, a.id);
      assert Trusted(w.mirror, a.id, l);
      var p := Pair(l.data, Mirrored(l.data));
      FoldExact(p, a.cands);
      FastFoldSynced(p, a.cands);
    }
    var w' := Step(w, a);
    forall id ensures Trusted(w'.mirror, id, ListOf(w'.lists, id)) {
      assert Trusted(w.mirror, id, ListOf(w.lists, id));
    }
  }

  lemma {:induction false} RunKeepsMirror(w: World, lists: map<nat, seq<ScopeRef>>, actions: seq<Action>)
    requires MirrorOk(w) && SameLists(w, lists) && FairRun(w, actions)
    ensures MirrorOk(Run(w, actions)) && SameLists(Run(w, actions), EngineRun(lists, actions))
    decreases |actions|
  {
    if actions != [] {
      StepKeepsMirror(w, lists, actions[0]);
      RunKeepsMirror(Step(w, actions[0]), EngineStep(lists, actions[0]), actions[1..]);
    }
  }

  /** One mirror, any number of lists, any interleaving of hooked and outside actions: in a fair run all
      lists end as the engine's algorithm leaves them. */
  lemma MirroredRunIsEngineRun(actions: seq<Action>)
    requires FairRun(START, actions)
    ensures SameLists(Run(START, actions), EngineRun(map[], actions))
  {
    RunKeepsMirror(START, map[], actions);
  }

  /** The fairness asked of outside actions cannot be dropped: once the set is trusted wrongly, some
      valid handle added next gives another list than the engine's. */
  lemma WrongTrustShows(w: World, id: nat) returns (h: Handle)
    requires !Trusted(w.mirror, id, ListOf(w.lists, id))
    requires forall x :: x in w.mirror.handles ==> x < INVALID_HANDLE
    ensures h != INVALID_HANDLE
    ensures forall buffer ::
              Step(w, Hooked(id, [h], buffer)).lists[id].data != LinearFold(ListOf(w.lists, id).data, [h])
  {
    var data := ListOf(w.lists, id).data;
    var x :| (x in w.mirror.handles && x !in Mirrored(data)) || (x !in w.mirror.handles && x in Mirrored(data));
    h := x;
    ListedIsMembership(data, h);
    var p := Pair(data, w.mirror.handles);
    assert FastFold(p, [h]) == FastFold(FastAdd(p, h), []) == FastAdd(p, h);
    assert LinearFold(data, [h]) == LinearFold(LinearAdd(data, h), []) == LinearAdd(data, h);
  }

  /** So the fairness asked of an outside action is needed: after an unfair one some valid handle, added
      next, gives another list than the engine's. */
  lemma UnfairShows(w: World, id: nat, value: ListValue) returns (h: Handle)
    requires MirrorOk(w) && !Fair(w, Outside(id, value))
    ensures h != INVALID_HANDLE
    ensures forall buffer ::
              Step(Step(w, Outside(id, value)), Hooked(id, [h], buffer)).lists[id].data != LinearFold(value.data, [h])
  {
    hide LinearFold, FastFold;
    var w' := Step(w, Outside(id, value));
    assert forall x :: x in w.mirror.handles ==> x < INVALID_HANDLE;
    h := WrongTrustShows(w', id);
  }

  // ---- outside appends -----------------------------------------------------------------------

  /** Outside actions only append, as the engine does while the plugin is toggled off. */
  ghost predicate AppendOnly(w: World, actions: seq<Action>)
    decreases |actions|
  {
    actions == [] ||
    (var a := actions[0];
     && (a.Hooked? ==> InvalidOfferedAtMostOnce(ListOf(w.lists, a.id).data, a.cands))
     && (a.Outside? ==> ListOf(w.lists, a.id).data <= a.value.data)
     && AppendOnly(Step(w, a), actions[1..]))
  }

  /** The followed list has not shrunk since the fingerprint was noted, and at the noted length it is
      what it was. */
  ghost predicate OnlyGrown(w: World) {
    MirrorOk(w) &&
    forall id :: w.mirror.list == Some(id) ==>
      var l := ListOf(w.lists, id);
      w.mirror.count <= |l.data| && (w.mirror.count == |l.data| ==> w.mirror.handles == Mirrored(l.data))
  }

  lemma {:induction false} AppendsAreFair(w: World, actions: seq<Action>)
    requires OnlyGrown(w) && AppendOnly(w, actions)
    ensures FairRun(w, actions)
    decreases |actions|
  {
    hide Mirrored, FastFold, LinearFold;
    if actions != [] {
      var a := actions[0];
      var w' := Step(w, a);
      if a.Hooked? {
        var l := ListOf(w.lists, a.id);
        assert Trusted(w.mirror, a.id, l);
        FastFoldSynced(Pair(l.data, Mirrored(l.data)), a.cands);
      } else {
        var data := ListOf(w.lists, a.id).data;
        if w.mirror.list == Some(a.id) && w.mirror.count == |a.value.data| {
          assert data == a.value.data[..|data|] == a.value.data;
        }
        assert Fair(w, a);
      }
      forall id ensures Trusted(w'.mirror, id, ListOf(w'.lists, id)) {
        assert Trusted(w.mirror, id, ListOf(w.lists, id));
      }
      AppendsAreFair(w', actions[1..]);
    }
  }

  /** So appends made behind the mirror's back never mislead it. */
  lemma AppendOnlyRunIsEngineRun(actions: seq<Action>)
    requires AppendOnly(START, actions)
    ensures SameLists(Run(START, actions), EngineRun(map[], actions))
  {
    AppendsAreFair(START, actions);
    MirroredRunIsEngineRun(actions);
  }

  // ---- the mirror object ---------------------------------------------------------------------

  class Mirror {
    var list: ScopeList?
    var buffer: nat
    var count: int
    var lastHandle: nat
    const handles: HandleSet

    constructor (hash: nat -> nat)
      ensures list == null && count == -1 && handles.Valid() && fresh(handles) && fresh(handles.slots)
    {
      list, buffer, count, lastHandle := null, 0, -1, 0;
      handles := new HandleSet(hash);
    }

    /** The mirror as a value, with l for list number 0. */
    ghost function Value(l: ScopeList): MirrorValue
      reads this, handles, handles.slots
    {
      MirrorValue(if list == l then Some(0) else None, buffer, count, lastHandle, handles.Contents())
    }

    /** A list with the noted fingerprint holds the handles in the set. */
    ghost predicate Trusts(l: ScopeList)
      reads this, handles, handles.slots, l
    {
      list == l && buffer == l.buffer && count == |l.data| &&
      (l.data == [] || l.data[|l.data| - 1].handle == lastHandle) ==>
        handles.Contents() == Mirrored(l.data)
    }

    method Sync(l: ScopeList)
      requires handles.Valid() && Trusts(l)
      modifies this, handles, handles.slots
      ensures handles.Valid() && (handles.slots == old(handles.slots) || fresh(handles.slots))
      ensures handles.Contents() == Mirrored(l.data)
      ensures list == l
    {
      hide Mirrored, HandleSet.Valid, HandleSet.Contents;
      var n := |l.data|;
      if list == l && buffer == l.buffer && count == n && (n <= 0 || l.data[n - 1].handle == lastHandle) {
        return;
      }
      SyncSetFromList(handles, l);
      list := l;
      buffer := l.buffer;
      count := n;
      lastHandle := if n > 0 then l.data[n - 1].handle else 0;
    }

    method NotePushed(l: ScopeList)
      requires handles.Contents() == Mirrored(l.data) && list == l
      modifies this
      ensures list == l && Trusts(l)
      ensures Value(l) == Noted(0, ListValue(l.data, l.buffer), handles.Contents())
    {
      buffer := l.buffer;
      count := |l.data|;
      lastHandle := if |l.data| > 0 then l.data[|l.data| - 1].handle else 0;
    }

    /** The hooked add-unique. */
    method DetourAddUnique(l: ScopeList, h: Handle)
      requires handles.Valid() && Trusts(l)
      modifies this, handles, handles.slots, l
      ensures handles.Valid() && (handles.slots == old(handles.slots) || fresh(handles.slots))
      ensures list == l && Trusts(l) && handles.Contents() == Mirrored(l.data)
      ensures l.data == FastFold(Pair(old(l.data), Mirrored(old(l.data))), [h]).list
      ensures l.data == LinearAdd(old(l.data), h) <==> !(h == INVALID_HANDLE && Listed(old(l.data), h))
    {
      hide Mirrored, HandleSet.Valid;
      ghost var p := Pair(l.data, Mirrored(l.data));
      Sync(l);
      FastAddSynced(p, h);
      FastAddExact(p, h);
      assert FastFold(p, [h]) == FastFold(FastAdd(p, h), []) == FastAdd(p, h);
      AddUnique(handles, l, h);
      NotePushed(l);
    }

    /** The hooked walker: the engine's walk exactly when the invalid handle is not offered twice. */
    method DetourWalker(l: ScopeList, e: Engine, f: Filter, x: Char, skip: Handle)
      requires handles.Valid() && Trusts(l)
      modifies this, handles, handles.slots, l
      ensures handles.Valid() && (handles.slots == old(handles.slots) || fresh(handles.slots))
      ensures list == l && Trusts(l) && handles.Contents() == Mirrored(l.data)
      ensures l.data == FastFold(Pair(old(l.data), Mirrored(old(l.data))), Candidates(e, f, x, skip)).list
      ensures l.data == LinearWalk(e, f, old(l.data), x, skip)
              <==> InvalidOfferedAtMostOnce(old(l.data), Candidates(e, f, x, skip))
    {
      hide Mirrored, HandleSet.Valid, FastFold, LinearWalk, InvalidOfferedAtMostOnce;
      ghost var p := Pair(l.data, Mirrored(l.data));
      Sync(l);
      WalkExact(e, f, p, x, skip);
      Walk(handles, l, e, f, x, skip);
      NotePushed(l);
    }
  }
}
