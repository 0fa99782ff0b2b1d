/** The family-list plugin: a composite builder's list is replayed from a per-thread cache when the
    same list was built in the same epoch. */
module FamilyCache {
  import opened Wrappers
  import opened CacheLog
  import opened Scopes
  import opened FamilyKey
  import Lists = ListCache
  import Protocol = EpochProtocol
  import Brackets = EpochBrackets

  const SLOTS: nat := 64
  const SANE_MAX: nat := 0x10_0000

  // ---- what is asked for ---------------------------------------------------------------------

  /** The engine's builders: the list for a reference, a builder, the two filter flags and a state. */
  type Builders = (ScopeRef, nat, bool, bool, int) -> Lists.Entries

  /** For a character reference only the low 32 bits of its handle matter. */
  ghost predicate ByHandle(build: Builders) {
    forall r: ScopeRef, selector, includeAll, deadOnly, world :: r.kind == CHARACTER_KIND ==>
      build(r, selector, includeAll, deadOnly, world) ==
      build(ScopeRef(CHARACTER_KIND, 0, r.handle % 0x1_0000_0000), selector, includeAll, deadOnly, world)
  }

  /** A list asked for: the character, the builder and the two filter flags. */
  datatype Request = Request(character: nat, selector: nat, includeAll: bool, deadOnly: bool) {
    predicate InWidth() {
      character < 0x1_0000_0000 && selector < 0x100
    }
  }

  /** What the builder gives for it in a state. */
  function Answer(build: Builders, r: Request, world: int): Lists.Entries {
    build(ScopeRef(CHARACTER_KIND, 0, r.character), r.selector, r.includeAll, r.deadOnly, world)
  }

  /** The key's triple: character, builder, and the two flags in one byte. */
  function TripleOf(r: Request): Triple {
    Triple(r.character, r.selector, (if r.deadOnly then 2 else 0) + (if r.includeAll then 1 else 0))
  }

  function KeyOf(r: Request): nat {
    MakeKey(TripleOf(r))
  }

  /** Different requests have different keys. */
  lemma RequestsNeverCollide(r: Request, q: Request)
    requires r.InWidth() && q.InWidth()
    ensures KeyOf(r) == KeyOf(q) <==> r == q
  {
    hide MakeKey;
    KeysNeverCollide(TripleOf(r), TripleOf(q));
  }

  /** The protocol with this plugin's key and cache. Lists are consulted outside ticks, and families
      change in effects and in ticks. */
  function FamilyConfig(build: Builders): Protocol.Config<Request, nat, Lists.Entries> {
    Protocol.Config((r, w) => Answer(build, r, w), r => KeyOf(r), (r: Request) => r.InWidth(),
                    (log, k, e) => Lists.Lookup(Lists.Run(SLOTS, log), k, e), false, true)
  }

  /** Nothing is assumed here: the key is injective and the cache answers what it was told. */
  lemma FamilyConfigIsSound(build: Builders)
    ensures Protocol.Sound(FamilyConfig(build))
  {
    hide KeyOf, Answer;
    var g := FamilyConfig(build);
    forall log, k, e | g.lookup(log, k, e).Some? ensures Stored(k, e, g.lookup(log, k, e).value) in log {
      Lists.HitIsLastStore(SLOTS, log, k, e, g.lookup(log, k, e).value);
    }
    forall r, q | g.seen(r) && g.seen(q) && g.key(r) == g.key(q) ensures r == q {
      RequestsNeverCollide(r, q);
    }
  }

  /** In every run in which families change only between the two bumps of an effect or a tick, a hit
      whose epoch was read with no such bracket open is the list a fresh build would give. */
  lemma FamilyHitsAreExact(build: Builders,
                           s: Protocol.State<Request, nat, Lists.Entries>,
                           moves: seq<Protocol.Move<Request, Lists.Entries>>,
                           last: Protocol.State<Request, nat, Lists.Entries>, t: nat, i: nat)
    requires Protocol.Initial(s) && Protocol.Runs(FamilyConfig(build), s, moves, last)
    requires t < |last.threads| && i < |last.threads[t].stack|
    requires var a := last.threads[t].stack[i]; a.Handler? && a.phase.Served? && a.phase.quiet
    ensures var a := last.threads[t].stack[i]; a.phase.value == Answer(build, a.context, a.phase.world)
  {
    FamilyConfigIsSound(build);
    Protocol.QuietHitsAreExact(FamilyConfig(build), s, moves, last, t, i);
  }

  /** With an effect open it is not so: for any triple whose list differs between two states there is a run
      of this very cache in which a hit, its epoch read inside an effect, is stale. */
  lemma FamilyNoisyHitCanBeStale(build: Builders, c: Request, w0: int, w1: int)
      returns (s: Protocol.State<Request, nat, Lists.Entries>, moves: seq<Protocol.Move<Request, Lists.Entries>>,
               last: Protocol.State<Request, nat, Lists.Entries>)
    requires c.InWidth() && Answer(build, c, w0) != Answer(build, c, w1)
    ensures Protocol.Initial(s) && Protocol.Runs(FamilyConfig(build), s, moves, last)
    ensures |last.threads| > 0 && last.threads[0].stack != []
    ensures var a := Protocol.Top(last.threads[0].stack);
            a.Handler? && a.phase.Served? && !a.phase.quiet && a.phase.value != Answer(build, a.context, a.phase.world)
  {
    hide Protocol.Runs, KeyOf, Answer, Lists.Run, Lists.Lookup;
    var g := FamilyConfig(build);
    forall e ensures g.lookup([], g.key(c), e) == None { Lists.FirstStoreHits(SLOTS, Stored(KeyOf(c), e, [])); }
    forall e, v ensures g.lookup([Stored(g.key(c), e, v)], g.key(c), e) == Some(v) {
      Lists.FirstStoreHits(SLOTS, Stored(KeyOf(c), e, v));
    }
    s, moves, last := Protocol.NoisyHitCanBeStale(g, c, w0, w1);
  }

  /** What the hooked builder is called with. build is the original builder, from the list on entry to
      the list on return. */
  datatype Call = Call(
    enabled: bool, ready: bool, interactive: bool, hasArguments: bool, inTick: int,
    character: Option<ScopeRef>,           // None when the arguments cannot be decoded
    selector: nat, includeAll: bool, deadOnly: bool,
    epoch: nat,                            // the epoch read before the lookup
    nested: seq<Lists.StoreOp>,            // the stores nested builders make while the original runs
    build: seq<ScopeRef> -> seq<ScopeRef>)

  predicate Bypassed(call: Call, list: seq<ScopeRef>) {
    || !call.enabled || !call.ready || !call.interactive || !call.hasArguments || call.inTick != 0
    || call.character.None? || call.character.value.kind != CHARACTER_KIND
    || list != []
  }

  /** What the call asks for: the low 32 bits of the handle, the builder, the two filter flags. */
  function RequestOf(call: Call): Request
    requires call.character.Some?
  {
    Request(call.character.value.handle % 0x1_0000_0000, call.selector, call.includeAll, call.deadOnly)
  }

  datatype Outcome = Outcome(list: seq<ScopeRef>, log: seq<Lists.StoreOp>)

  function Handle(log: seq<Lists.StoreOp>, list: seq<ScopeRef>, call: Call): Outcome {
    if Bypassed(call, list) then Outcome(call.build(list), log + call.nested)
    else
      var key := KeyOf(RequestOf(call));
      match Lists.Lookup(Lists.Run(SLOTS, log), key, call.epoch)
      case Some(entries) => Outcome(entries, log)
      case None =>
        var built := call.build([]);
        Outcome(built, log + call.nested + if |built| <= SANE_MAX then [Stored(key, call.epoch, built)] else [])
  }

  /** The hooked builder does what the protocol's steps do: a call on an empty list that is not bypassed
      makes a run that ends served with the list the hook leaves, or goes on building; and when the nested
      builders have made their stores the rest of the call leaves its thread the hook's log. */
  lemma HandleFollowsProtocol(build: Builders,
                              s: Protocol.State<Request, nat, Lists.Entries>, t: nat, call: Call,
                              later: Protocol.State<Request, nat, Lists.Entries>)
      returns (moves: seq<Protocol.Move<Request, Lists.Entries>>, last: Protocol.State<Request, nat, Lists.Entries>,
               quiet: bool, end: seq<Protocol.Move<Request, Lists.Entries>>,
               ended: Protocol.State<Request, nat, Lists.Entries>)
    requires !Bypassed(call, []) && t < |s.threads| && Protocol.MayCall(s.threads[t].stack)
    requires RequestOf(call).InWidth() && s.inTick == call.inTick && call.epoch == s.epoch
    requires Protocol.Calling(later, t, s.threads[t].stack, s.threads[t].log + call.nested, RequestOf(call),
                              Protocol.Running(s.epoch, s.version))
    requires later.version == s.version ==> call.build([]) == Answer(build, RequestOf(call), later.world)
    ensures var g, th, c := FamilyConfig(build), s.threads[t], RequestOf(call);
            var o := Handle(th.log, [], call);
            && Protocol.Runs(g, s, moves, last) && (quiet <==> Protocol.Quiet(g, s))
            && if Lists.Lookup(Lists.Run(SLOTS, th.log), KeyOf(c), s.epoch).Some?
               then Protocol.Calling(last, t, th.stack, o.log, c, Protocol.Served(o.list, s.world, quiet))
               else && Protocol.Calling(last, t, th.stack, th.log, c, Protocol.Running(s.epoch, s.version))
                    && Protocol.Runs(g, later, end, ended) && t < |ended.threads|
                    && ended.threads[t] == Protocol.Thread(th.stack, o.log)
  {
    hide Protocol.Runs, Protocol.Calling, Protocol.Quiet, KeyOf, Answer, Lists.Run, Lists.Lookup;
    var g, c, log := FamilyConfig(build), RequestOf(call), s.threads[t].log + call.nested;
    moves, last, quiet := Protocol.CallBegins(g, s, t, c);
    end, ended := Protocol.CallEnds(g, later, t, s.threads[t].stack, log, c, s.epoch, s.version,
                                    call.build([]), |call.build([])| <= SANE_MAX);
    assert log + [] == log;
  }

  predicate Hits(log: seq<Lists.StoreOp>, list: seq<ScopeRef>, call: Call) {
    !Bypassed(call, list) && Lists.Lookup(Lists.Run(SLOTS, log), KeyOf(RequestOf(call)), call.epoch).Some?
  }

  /** When all that is cached for this call's triple and epoch is one list, a hit replays it; any other
      call leaves what the original builder leaves. */
  lemma HandleReplaysCached(log: seq<Lists.StoreOp>, list: seq<ScopeRef>, call: Call, entries: Lists.Entries)
    requires call.character.Some? ==>
               forall op :: op in log && op.key == KeyOf(RequestOf(call)) && op.epoch == call.epoch ==>
                   op.value == entries
    ensures Handle(log, list, call).list == if Hits(log, list, call) then entries else call.build(list)
  {
    hide KeyOf, Lists.Run, Lists.Lookup;
    if Hits(log, list, call) {
      var key := KeyOf(RequestOf(call));
      Lists.HitIsLastStore(SLOTS, log, key, call.epoch, Lists.Lookup(Lists.Run(SLOTS, log), key, call.epoch).value);
    }
  }

  /** The family cache is invisible: whatever any number of threads did before, a hooked builder whose epoch
      is read with no effect and no tick open leaves the list the original leaves, or replays the list the
      builder gives in the state at the read. So if that is what the original builds, the hook leaves the
      original's list from any list. */
  lemma HookIsTransparent(build: Builders,
                          s0: Protocol.State<Request, nat, Lists.Entries>,
                          moves: seq<Protocol.Move<Request, Lists.Entries>>,
                          s: Protocol.State<Request, nat, Lists.Entries>, t: nat, list: seq<ScopeRef>, call: Call)
    requires Protocol.Initial(s0) && Protocol.Runs(FamilyConfig(build), s0, moves, s) && t < |s.threads|
    requires Protocol.Quiet(FamilyConfig(build), s) && call.epoch == s.epoch
    requires ByHandle(build) && call.selector < 0x100
    ensures var log := s.threads[t].log;
            Handle(log, list, call).list ==
              if Hits(log, list, call)
              then build(call.character.value, call.selector, call.includeAll, call.deadOnly, s.world)
              else call.build(list)
    ensures (call.character.Some? && call.character.value.kind == CHARACTER_KIND ==>
              call.build([]) ==
                build(call.character.value, call.selector, call.includeAll, call.deadOnly, s.world)) ==>
              Handle(s.threads[t].log, list, call).list == call.build(list)
  {
    hide Protocol.Runs, Protocol.Quiet, KeyOf, Answer, ByHandle, Lists.Run, Lists.Lookup;
    var g, log := FamilyConfig(build), s.threads[t].log;
    if call.character.Some? {
      var c := RequestOf(call);
      FamilyConfigIsSound(build);
      forall op | op in log && op.key == KeyOf(c) && op.epoch == call.epoch
        ensures op.value == Answer(build, c, s.world)
      {
        Protocol.QuietEntriesAreCurrent(g, s0, moves, s, t, op, c);
      }
      HandleReplaysCached(log, list, call, Answer(build, c, s.world));
      if call.character.value.kind == CHARACTER_KIND { AnswerIsBuilt(build, call, s.world); }
    }
  }

  lemma AnswerIsBuilt(build: Builders, call: Call, world: int)
    requires ByHandle(build) && call.character.Some? && call.character.value.kind == CHARACTER_KIND
    ensures Answer(build, RequestOf(call), world) ==
            build(call.character.value, call.selector, call.includeAll, call.deadOnly, world)
  {
  }

  /** A call that passes the gates and misses leaves the builder's list, and stores it under the key of its
      request and the epoch it read, unless it has more than 2^20 entries. */
  lemma MissedCall(log: seq<Lists.StoreOp>, list: seq<ScopeRef>, call: Call)
    requires call.enabled && call.ready && call.interactive && call.hasArguments && call.inTick == 0 && list == []
    requires call.character.Some? && call.character.value.kind == 4 &&
             Lists.Lookup(Lists.Run(SLOTS, log), KeyOf(RequestOf(call)), call.epoch) == None
    ensures var o, built := Handle(log, list, call), call.build([]);
            && o.list == built
            && o.log == log + call.nested +
                        if |built| <= 0x10_0000 then [Stored(KeyOf(RequestOf(call)), call.epoch, built)] else []
  {
    hide KeyOf, Lists.Run, Lists.Lookup;
    assert log + call.nested + [] == log + call.nested;
  }

  /** The list such a call stored is what the next call for the same request in the same epoch leaves, without
      building it again. */
  lemma StoredListIsReplayed(log: seq<Lists.StoreOp>, call: Call, next: Call)
    requires call.enabled && call.ready && call.interactive && call.hasArguments && call.inTick == 0
    requires call.character.Some? && call.character.value.kind == 4 && |call.build([])| <= 0x10_0000 &&
             Lists.Lookup(Lists.Run(SLOTS, log), KeyOf(RequestOf(call)), call.epoch) == None
    requires next.enabled && next.ready && next.interactive && next.hasArguments && next.inTick == 0
    requires next.epoch == call.epoch && next.character.Some? && next.character.value.kind == 4
    requires next.character.value.handle % 0x1_0000_0000 == call.character.value.handle % 0x1_0000_0000
    requires next.selector == call.selector && next.includeAll == call.includeAll && next.deadOnly == call.deadOnly
    ensures var o := Handle(log, [], call);
            Handle(o.log, [], next) == Outcome(call.build([]), o.log)
  {
    hide KeyOf, Lists.Run, Lists.Lookup;
    var op := Stored(KeyOf(RequestOf(call)), call.epoch, call.build([]));
    Lists.RunAppend(SLOTS, log + call.nested, op);
    Lists.StoredIsFound(Lists.Run(SLOTS, log + call.nested), op);
  }

  /** Right after any bump, so inside an effect or a tick that has just opened, every call misses: no list
      cached before is replayed. */
  lemma FirstCallAfterBumpMisses(build: Builders,
                                 s0: Protocol.State<Request, nat, Lists.Entries>,
                                 moves: seq<Protocol.Move<Request, Lists.Entries>>,
                                 s: Protocol.State<Request, nat, Lists.Entries>, t: nat,
                                 step: Protocol.Step<Request, Lists.Entries>, u: nat, list: seq<ScopeRef>, call: Call)
    requires Protocol.Initial(s0) && Protocol.Runs(FamilyConfig(build), s0, moves, s)
    requires t < |s.threads| && Protocol.Enabled(FamilyConfig(build), s, t, step) && Brackets.Bumps(step)
    requires var s' := Protocol.Apply(FamilyConfig(build), s, t, step);
             u < |s'.threads| && call.epoch == s'.epoch
    ensures !Hits(Protocol.Apply(FamilyConfig(build), s, t, step).threads[u].log, list, call)
  {
    hide Protocol.Runs, Protocol.Enabled, Protocol.Apply, Brackets.Bumps, KeyOf, Answer, Lists.Run, Lists.Lookup;
    var g := FamilyConfig(build);
    FamilyConfigIsSound(build);
    Brackets.BumpStartsAfresh(g, s0, moves, s, t, step);
    var s' := Protocol.Apply(g, s, t, step);
    if !Bypassed(call, list) {
      assert g.lookup(s'.threads[u].log, KeyOf(RequestOf(call)), s'.epoch) == None;
    }
  }

  method RunNested(cache: Lists.Cache, ghost log: seq<Lists.StoreOp>, ops: seq<Lists.StoreOp>)
    requires cache.slots.Length == SLOTS && cache.slots[..] == Lists.Run(SLOTS, log)
    modifies cache, cache.slots
    ensures cache.slots[..] == Lists.Run(SLOTS, log + ops)
  {
    assert log + ops[..0] == log;
    for j := 0 to |ops|
      invariant cache.slots[..] == Lists.Run(SLOTS, log + ops[..j])
    {
      cache.Put(ops[j].key, ops[j].epoch, ops[j].value);
      Lists.RunAppend(SLOTS, log + ops[..j], ops[j]);
      assert log + ops[..j + 1] == log + ops[..j] + [ops[j]];
    }
    assert ops[..|ops|] == ops;
  }

  method DetourBuilder(cache: Lists.Cache, ghost log: seq<Lists.StoreOp>, list: ScopeList, call: Call)
    requires cache.slots.Length == SLOTS && cache.slots[..] == Lists.Run(SLOTS, log)
    modifies cache, cache.slots, list
    ensures var o := Handle(log, old(list.data), call);
            list.data == o.list && cache.slots[..] == Lists.Run(SLOTS, o.log)
    ensures !call.enabled || !call.ready || !call.interactive || !call.hasArguments || call.inTick != 0 ||
            call.character.None? || call.character.value.kind != 4 || old(list.data) != [] ==>
              list.data == call.build(old(list.data)) && cache.slots[..] == Lists.Run(SLOTS, log + call.nested)
  {
    hide KeyOf;
    if Bypassed(call, list.data) {
      RunNested(cache, log, call.nested);
      list.data := call.build(list.data);
      return;
    }
    var key := KeyOf(RequestOf(call));
    var hit := cache.LookUp(key, call.epoch);
    if hit.Some? {
      for i := 0 to |hit.value|
        invariant list.data == hit.value[..i]
        invariant cache.slots[..] == Lists.Run(SLOTS, log)
      {
        list.PushBack(hit.value[i]);
      }
      return;
    }
    RunNested(cache, log, call.nested);
    list.data := call.build(list.data);
    if |list.data| <= SANE_MAX {
      cache.Put(key, call.epoch, list.data);
      Lists.RunAppend(SLOTS, log + call.nested, Stored(key, call.epoch, list.data));
    } else {
      assert log + call.nested + [] == log + call.nested;
    }
  }
}
