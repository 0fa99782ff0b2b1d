/** The tick plugin's handler: a trigger evaluation inside a tick, served from a per-thread table
    when the same context was evaluated in the same epoch. */
module TickCache {
  import opened Wrappers
  import opened CacheLog
  import opened ContextWords
  import Table = EpochCache
  import Protocol = EpochProtocol
  import Brackets = EpochBrackets
  import Decisions = DecisionTable
  import Calls = DecisionCalls

  const CACHE_SLOTS: nat := 0x4_0000

  /** The 128-bit hasher, as an arbitrary function of the word stream. */
  type Hash = seq<nat> -> Table.ContextKey

  /** The assumption on it: contexts met in one run collide only when their streams are equal. */
  ghost predicate NoCollision(hash: Hash, seen: Context -> bool) {
    && (forall c :: seen(c) ==> Decodable(c))
    && (forall c, d :: seen(c) && seen(d) && hash(Words(c)) == hash(Words(d)) ==> Words(c) == Words(d))
  }

  /** The protocol with this plugin's key and table. Trigger results are read inside ticks, and the
      state they depend on changes in effects only. */
  function TickConfig(eval: (Context, int) -> nat, hash: Hash, seen: Context -> bool)
    : Protocol.Config<Context, Table.ContextKey, nat>
  {
    Protocol.Config(eval, c => hash(Words(c)), seen,
                    (log, k, e) => Table.Lookup(Table.Run(CACHE_SLOTS, log), k, e), true, false)
  }

  lemma TickConfigIsSound(eval: (Context, int) -> nat, hash: Hash, seen: Context -> bool)
    requires NoCollision(hash, seen)
    ensures Protocol.Sound(TickConfig(eval, hash, seen))
  {
    var g := TickConfig(eval, hash, seen);
    forall log, k, e | g.lookup(log, k, e).Some? ensures Stored(k, e, g.lookup(log, k, e).value) in log {
      Table.HitWasStored(CACHE_SLOTS, log, k, e);
    }
    forall c, d | seen(c) && seen(d) && g.key(c) == g.key(d) ensures c == d {
      WordsDetermineContext(c, d);
    }
  }

  /** Words, hash, table, epochs and interleaving together: in every run of any number of threads, a
      trigger result served from the table, its epoch read while no effect was open, is what the
      engine's evaluator returns for that very context in the state at the read. */
  lemma TickHitsAreExact(eval: (Context, int) -> nat, hash: Hash, seen: Context -> bool,
                         s: Protocol.State<Context, Table.ContextKey, nat>, moves: seq<Protocol.Move<Context, nat>>,
                         last: Protocol.State<Context, Table.ContextKey, nat>, t: nat, i: nat)
    requires NoCollision(hash, seen)
    requires Protocol.Initial(s) && Protocol.Runs(TickConfig(eval, hash, seen), s, moves, last)
    requires t < |last.threads| && i < |last.threads[t].stack|
    requires var a := last.threads[t].stack[i]; a.Handler? && a.phase.Served? && a.phase.quiet
    ensures var a := last.threads[t].stack[i]; a.phase.value == eval(a.context, a.phase.world)
  {
    TickConfigIsSound(eval, hash, seen);
    Protocol.QuietHitsAreExact(TickConfig(eval, hash, seen), s, moves, last, t, i);
  }

  /** With an effect open it is not so: for any context on which the evaluator tells two states apart there
      is a run of this very table in which a hit, its epoch read inside an effect, is stale. */
  lemma TickNoisyHitCanBeStale(eval: (Context, int) -> nat, hash: Hash, seen: Context -> bool,
                               c: Context, w0: int, w1: int)
      returns (s: Protocol.State<Context, Table.ContextKey, nat>, moves: seq<Protocol.Move<Context, nat>>,
               last: Protocol.State<Context, Table.ContextKey, nat>)
    requires seen(c) && eval(c, w0) != eval(c, w1)
    ensures Protocol.Initial(s) && Protocol.Runs(TickConfig(eval, hash, seen), s, moves, last)
    ensures |last.threads| > 0 && last.threads[0].stack != []
    ensures var a := Protocol.Top(last.threads[0].stack);
            a.Handler? && a.phase.Served? && !a.phase.quiet && a.phase.value != eval(a.context, a.phase.world)
  {
    hide Protocol.Runs, Words, Table.Run, Table.Lookup;
    var g := TickConfig(eval, hash, seen);
    forall e ensures g.lookup([], g.key(c), e) == None {
      Table.FirstStoreHits(CACHE_SLOTS, Stored(hash(Words(c)), e, 0));
    }
    forall e: nat, v: nat ensures g.lookup([Stored(g.key(c), e, v)], g.key(c), e) == Some(v) {
      Table.FirstStoreHits(CACHE_SLOTS, Stored(hash(Words(c)), e, v));
    }
    s, moves, last := Protocol.NoisyHitCanBeStale(g, c, w0, w1);
  }

  /** What the handler's caller and the process around it fix. */
  datatype Call = Call(
    enabled: bool, active: bool, hasNode: bool, inTick: int,
    decision: nat,                    // the verdict on the node's class
    context: Option<Context>,         // None when the context cannot be read
    epoch: nat,                       // the epoch read before the lookup
    nested: seq<Table.StoreOp>,       // the stores nested evaluations make while the chain runs
    result: nat,                      // what the rest of the chain returns
    scopesMoved: bool)                // read again, the context has other saved-scope counts than before the chain

  predicate Bypassed(call: Call) {
    !call.enabled || !call.active || !call.hasNode || call.inTick == 0 || call.decision != 1 || call.context.None?
  }

  datatype Outcome = Outcome(result: nat, poisoned: bool, log: seq<Table.StoreOp>)

  /** The handler on the log of its thread: a protocol evaluation from its epoch read to its end. */
  function Handle(log: seq<Table.StoreOp>, hash: Hash, call: Call): Outcome {
    if Bypassed(call) then Outcome(call.result, false, log + call.nested)
    else
      var key := hash(Words(call.context.value));
      match Table.Lookup(Table.Run(CACHE_SLOTS, log), key, call.epoch)
      case Some(cached) => Outcome(cached, false, log)
      case None =>
        if call.scopesMoved then Outcome(call.result, true, log + call.nested)
        else Outcome(call.result, false, log + call.nested + [Stored(key, call.epoch, call.result)])
  }

  predicate Hits(log: seq<Table.StoreOp>, hash: Hash, call: Call) {
    !Bypassed(call) &&
    Table.Lookup(Table.Run(CACHE_SLOTS, log), hash(Words(call.context.value)), call.epoch).Some?
  }

  /** When all that is cached for this call's context and epoch is one value, a hit serves it; any other
      call returns what its chain returns. */
  lemma HandleServesCached(log: seq<Table.StoreOp>, hash: Hash, call: Call, value: nat)
    requires call.context.Some? ==>
               forall op :: op in log && op.key == hash(Words(call.context.value)) && op.epoch == call.epoch ==>
                   op.value == value
    ensures Handle(log, hash, call).result == if Hits(log, hash, call) then value else call.result
  {
    hide Words, Table.Run, Table.Lookup;
    if Hits(log, hash, call) {
      Table.HitWasStored(CACHE_SLOTS, log, hash(Words(call.context.value)), call.epoch);
    }
  }

  /** A call that passes the gates and misses returns what its chain returns. It poisons its class exactly when
      the chain moved the saved scopes, and then stores nothing; otherwise it stores the result under the key of
      its context and the epoch it read, after whatever its nested evaluations stored. */
  lemma MissedCall(log: seq<Table.StoreOp>, hash: Hash, call: Call)
    requires call.enabled && call.active && call.hasNode && call.inTick != 0 && call.decision == 1
    requires call.context.Some? &&
             Table.Lookup(Table.Run(CACHE_SLOTS, log), hash(Words(call.context.value)), call.epoch) == None
    ensures var o := Handle(log, hash, call);
            && o.result == call.result && (o.poisoned <==> call.scopesMoved)
            && o.log == log + call.nested +
                 if call.scopesMoved then []
                 else [Stored(hash(Words(call.context.value)), call.epoch, call.result)]
  {
    hide Words, Table.Run, Table.Lookup;
    assert log + call.nested + [] == log + call.nested;
  }

  /** What such a call stored, the next call of the context in the same epoch returns without running its chain,
      provided one of the key's 32 slots was free for the store. */
  lemma StoredResultIsServed(log: seq<Table.StoreOp>, hash: Hash, call: Call, next: Call, n: nat)
    requires call.enabled && call.active && call.hasNode && call.inTick != 0 && call.decision == 1
    requires call.context.Some? && !call.scopesMoved &&
             Table.Lookup(Table.Run(CACHE_SLOTS, log), hash(Words(call.context.value)), call.epoch) == None
    requires var t, k := Table.Run(CACHE_SLOTS, log + call.nested), hash(Words(call.context.value));
             && n < 32
             && var s := t[(k.lo + n) % CACHE_SLOTS]; !s.occupied || s.epoch != call.epoch || s.key == k
    requires next.enabled && next.active && next.hasNode && next.inTick != 0 && next.decision == 1
    requires next.context == call.context && next.epoch == call.epoch
    ensures var o := Handle(log, hash, call);
            Handle(o.log, hash, next) == Outcome(call.result, false, o.log)
  {
    hide Words, Table.Run, Table.Lookup, Table.Store;
    var t, k := Table.Run(CACHE_SLOTS, log + call.nested), hash(Words(call.context.value));
    Table.RoomForKey(t, k, call.epoch, n);
    Table.StoredIsFound(t, k, call.epoch, call.result);
    RunAppend(log + call.nested, Stored(k, call.epoch, call.result));
  }

  /** Right after any bump, so inside an effect or a tick that has just opened, every call misses: what was
      cached before is not served. */
  lemma FirstCallAfterBumpMisses(eval: (Context, int) -> nat, hash: Hash, seen: Context -> bool,
                                 s0: Protocol.State<Context, Table.ContextKey, nat>,
                                 moves: seq<Protocol.Move<Context, nat>>,
                                 s: Protocol.State<Context, Table.ContextKey, nat>, t: nat,
                                 step: Protocol.Step<Context, nat>, u: nat, call: Call)
    requires NoCollision(hash, seen)
    requires Protocol.Initial(s0) && Protocol.Runs(TickConfig(eval, hash, seen), s0, moves, s)
    requires t < |s.threads| && Protocol.Enabled(TickConfig(eval, hash, seen), s, t, step) && Brackets.Bumps(step)
    requires var s' := Protocol.Apply(TickConfig(eval, hash, seen), s, t, step);
             u < |s'.threads| && call.epoch == s'.epoch
    ensures !Hits(Protocol.Apply(TickConfig(eval, hash, seen), s, t, step).threads[u].log, hash, call)
  {
    hide Protocol.Runs, Protocol.Enabled, Protocol.Apply, Brackets.Bumps, Words, Table.Run, Table.Lookup;
    var g := TickConfig(eval, hash, seen);
    TickConfigIsSound(eval, hash, seen);
    Brackets.BumpStartsAfresh(g, s0, moves, s, t, step);
    var s' := Protocol.Apply(g, s, t, step);
    if !Bypassed(call) {
      assert g.lookup(s'.threads[u].log, hash(Words(call.context.value)), s'.epoch) == None;
    }
  }

  // ---- the handler and the decision table ----------------------------------------------------

  /** A call that begins after its class was poisoned, with whatever verdict the table gives it, is
      bypassed: it runs its chain, and the cache is neither read nor written for it. */
  lemma PoisonedClassIsBypassed(g: Decisions.Config, s: Decisions.State, t: nat, log: seq<Table.StoreOp>, hash: Hash,
                                call: Call)
    requires g.afterVerdict && Decisions.Reachable(g, s) && t < |s.threads|
    requires var th := s.threads[t]; th.Decided? && th.late && call.decision == th.result
    ensures Bypassed(call) && Handle(log, hash, call) == Outcome(call.result, false, log + call.nested)
  {
    hide Decisions.Reachable, Words, Table.Run, Table.Lookup;
    Decisions.PoisonIsFinal(g, s);
  }

  /** A handler that poisons its class may do so in the table's machine: it was given verdict 1, which is
      the guard afterVerdict. */
  lemma PoisoningFollowsVerdict(g: Decisions.Config, s: Decisions.State, t: nat, log: seq<Table.StoreOp>, hash: Hash,
                                call: Call)
    requires g.afterVerdict && Decisions.Reachable(g, s) && t < |s.threads|
    requires var th := s.threads[t]; th.Decided? && call.decision == th.result && Handle(log, hash, call).poisoned
    ensures Decisions.Enabled(g, s, t, Decisions.Mark(s.threads[t].class_))
    ensures call.decision == 1 && g.whitelisted(s.threads[t].class_) && !s.threads[t].late && call.scopesMoved
  {
    hide Decisions.Reachable, Words, Table.Run, Table.Lookup;
    Decisions.PoisonIsFinal(g, s);
    Decisions.DecidedClass(g, s, t);
  }

  /** A class that moves scopes is caught once: the call that saw it poisons it, and, whatever threads do
      afterwards, every call of the class that begins later is bypassed. */
  lemma PoisonedOnceBypassedLater(g: Decisions.Config, s: Decisions.State, t: nat,
                                  log: seq<Table.StoreOp>, hash: Hash, call: Call)
      returns (marking: seq<Decisions.Turn>, marked: Decisions.State)
    requires g.afterVerdict && Decisions.Reachable(g, s) && t < |s.threads|
    requires var th := s.threads[t]; th.Decided? && call.decision == th.result
    requires !Bypassed(call) && !Hits(log, hash, call) && call.scopesMoved
    ensures Handle(log, hash, call).poisoned && Decisions.Runs(g, s, marking, marked)
    ensures var c := s.threads[t].class_;
            && marking != [] && marking[0] == Decisions.Turn(t, Decisions.Mark(c)) && c in marked.poisoned
            && forall later, u, last, decided, ended, next ::
                 LaterCall(g, marked, c, later, u, last, decided, ended, next) ==> Bypassed(next)
  {
    hide Decisions.Runs, Decisions.Reachable, Words, Table.Run, Table.Lookup;
    MissedCall(log, hash, call);
    Decisions.DecidedClass(g, s, t);
    marking, marked := Calls.MarkAlone(g, s, t);
    Calls.RunStaysReachable(g, s, marking, marked);
    var c := s.threads[t].class_;
    forall later, u, last, decided, ended, next | LaterCall(g, marked, c, later, u, last, decided, ended, next)
      ensures Bypassed(next)
    {
      Calls.PoisonStays(g, marked, later, last);
      Calls.RunStaysReachable(g, marked, later, last);
      Calls.CallAfterPoison(g, last, u, c, decided, ended);
    }
  }

  /** From the state marked, the turns later lead to the state last, in which thread u begins a call of c that
      the turns decided bring to its verdict, with which the handler call next is made. */
  ghost predicate LaterCall(g: Decisions.Config, marked: Decisions.State, c: nat, later: seq<Decisions.Turn>, u: nat,
                            last: Decisions.State, decided: seq<Decisions.Turn>, ended: Decisions.State, next: Call) {
    && Decisions.Runs(g, marked, later, last) && |last.slots| > 0
    && u < |last.threads| && last.threads[u].Idle? && Decisions.Enabled(g, last, u, Decisions.Call(c))
    && Decisions.Runs(g, Decisions.Apply(g, last, u, Decisions.Call(c)), decided, ended)
    && (forall n :: 0 <= n < |decided| && decided[n].thread == u ==> decided[n].move == Decisions.Continue)
    && u < |ended.threads| && ended.threads[u].Decided? && next.decision == ended.threads[u].result
  }

  /** The handler does what the protocol's steps do. A call that is not bypassed makes a run: it ends
      served with the handler's result, or goes on evaluating; and when the nested evaluations have made
      their stores, whatever else ran in between, the rest of the call leaves its thread the handler's
      log. */
  lemma HandleFollowsProtocol(eval: (Context, int) -> nat, hash: Hash, seen: Context -> bool,
                              s: Protocol.State<Context, Table.ContextKey, nat>, t: nat, call: Call,
                              later: Protocol.State<Context, Table.ContextKey, nat>)
      returns (moves: seq<Protocol.Move<Context, nat>>, last: Protocol.State<Context, Table.ContextKey, nat>,
               quiet: bool, end: seq<Protocol.Move<Context, nat>>,
               ended: Protocol.State<Context, Table.ContextKey, nat>)
    requires !Bypassed(call) && t < |s.threads| && Protocol.MayCall(s.threads[t].stack)
    requires seen(call.context.value) && s.inTick == call.inTick && call.epoch == s.epoch
    requires Protocol.Calling(later, t, s.threads[t].stack, s.threads[t].log + call.nested, call.context.value,
                              Protocol.Running(s.epoch, s.version))
    requires later.version == s.version ==> call.result == eval(call.context.value, later.world)
    ensures var g, th, c := TickConfig(eval, hash, seen), s.threads[t], call.context.value;
            var o := Handle(th.log, hash, call);
            && Protocol.Runs(g, s, moves, last) && (quiet <==> Protocol.Quiet(g, s))
            && if Table.Lookup(Table.Run(CACHE_SLOTS, th.log), hash(Words(c)), s.epoch).Some?
               then Protocol.Calling(last, t, th.stack, o.log, c, Protocol.Served(o.result, s.world, quiet))
               else && Protocol.Calling(last, t, th.stack, th.log, c, Protocol.Running(s.epoch, s.version))
                    && Protocol.Runs(g, later, end, ended) && t < |ended.threads|
                    && ended.threads[t] == Protocol.Thread(th.stack, o.log)
  {
    hide Protocol.Runs, Protocol.Calling, Protocol.Quiet, Words, Table.Run, Table.Lookup;
    var g, c := TickConfig(eval, hash, seen), call.context.value;
    moves, last, quiet := Protocol.CallBegins(g, s, t, c);
    end, ended := Protocol.CallEnds(g, later, t, s.threads[t].stack, s.threads[t].log + call.nested, c,
                                    s.epoch, s.version, call.result, !call.scopesMoved);
  }

  /** The tick cache is invisible: whatever any number of threads did before, a handler call whose epoch is
      read while no effect is open returns what its chain returned, or serves what the engine's evaluator
      returns for its context in the state at the read. So if that is what the chain returns, the handler
      returns it too. */
  lemma HookIsTransparent(eval: (Context, int) -> nat, hash: Hash, seen: Context -> bool,
                          s0: Protocol.State<Context, Table.ContextKey, nat>, moves: seq<Protocol.Move<Context, nat>>,
                          s: Protocol.State<Context, Table.ContextKey, nat>, t: nat, call: Call)
    requires NoCollision(hash, seen)
    requires Protocol.Initial(s0) && Protocol.Runs(TickConfig(eval, hash, seen), s0, moves, s) && t < |s.threads|
    requires Protocol.Quiet(TickConfig(eval, hash, seen), s) && call.epoch == s.epoch
    requires call.context.Some? ==> seen(call.context.value)
    ensures var log := s.threads[t].log;
            Handle(log, hash, call).result ==
              if Hits(log, hash, call) then eval(call.context.value, s.world) else call.result
    ensures (call.context.Some? ==> call.result == eval(call.context.value, s.world)) ==>
              Handle(s.threads[t].log, hash, call).result == call.result
  {
    hide Protocol.Runs, Protocol.Quiet, Words, Table.Run, Table.Lookup;
    var g, log := TickConfig(eval, hash, seen), s.threads[t].log;
    if call.context.Some? {
      var c := call.context.value;
      TickConfigIsSound(eval, hash, seen);
      forall op | op in log && op.key == hash(Words(c)) && op.epoch == call.epoch ensures op.value == eval(c, s.world) {
        Protocol.QuietEntriesAreCurrent(g, s0, moves, s, t, op, c);
      }
      HandleServesCached(log, hash, call, eval(c, s.world));
    }
  }

  lemma RunAppend(log: seq<Table.StoreOp>, op: Table.StoreOp)
    ensures Table.Run(CACHE_SLOTS, log + [op]) == Table.Store(Table.Run(CACHE_SLOTS, log), op.key, op.epoch, op.value)
  {
    assert (log + [op])[..|log|] == log;
  }

  method RunNested(cache: Table.Cache, ghost log: seq<Table.StoreOp>, ops: seq<Table.StoreOp>)
    requires cache.slots.Length == CACHE_SLOTS && cache.slots[..] == Table.Run(CACHE_SLOTS, log)
    modifies cache, cache.slots
    ensures cache.slots[..] == Table.Run(CACHE_SLOTS, log + ops)
  {
    hide Table.Run, Table.Store;
    assert log + ops[..0] == log;
    for j := 0 to |ops|
      invariant cache.slots[..] == Table.Run(CACHE_SLOTS, log + ops[..j])
    {
      cache.Put(ops[j].key, ops[j].epoch, ops[j].value);
      RunAppend(log + ops[..j], ops[j]);
      assert log + ops[..j + 1] == log + ops[..j] + [ops[j]];
    }
    assert ops[..|ops|] == ops;
  }

  /** The registered handler. The chain's nested evaluations store into the same table between the
      lookup and the store, possibly under newer epochs. */
  method TickHandler(cache: Table.Cache, ghost log: seq<Table.StoreOp>, hash: Hash, call: Call)
      returns (result: nat, poisoned: bool)
    requires cache.slots.Length == CACHE_SLOTS && cache.slots[..] == Table.Run(CACHE_SLOTS, log)
    modifies cache, cache.slots
    ensures var o := Handle(log, hash, call);
            result == o.result && poisoned == o.poisoned && cache.slots[..] == Table.Run(CACHE_SLOTS, o.log)
    ensures (|| !call.enabled || !call.active || !call.hasNode
             || call.inTick == 0 || call.decision != 1 || call.context.None?) ==>
              result == call.result && !poisoned && cache.slots[..] == Table.Run(CACHE_SLOTS, log + call.nested)
  {
    if Bypassed(call) {
      RunNested(cache, log, call.nested);
      return call.result, false;
    }
    var key := hash(Words(call.context.value));
    var cached := cache.LookUp(key, call.epoch);
    if cached.Some? {
      return cached.value, false;
    }
    RunNested(cache, log, call.nested);
    if call.scopesMoved {
      return call.result, true;
    }
    cache.Put(key, call.epoch, call.result);
    RunAppend(log + call.nested, Stored(key, call.epoch, call.result));
    return call.result, false;
  }
}
