/** The epoch protocol as a step machine.

    Any number of threads run effects and ticks, which bump the shared epoch on both sides of the
    engine call, and cached evaluations, which read the epoch, look up, evaluate on a miss and store
    under the epoch they read. Every access to shared state is one step; steps interleave freely.
    Each thread has a stack, because an evaluation runs nested evaluations and effects, and a log of
    what it stored in its own cache. */
module EpochProtocol {
  import opened Wrappers
  import opened CacheLog

  /** The engine and the cache, as the protocol sees them.
      eval:  the result of evaluating a context in a state of the game (states are named by integers);
      key:   the key the context is cached under;
      seen:  the contexts evaluations are entered with;
      lookup: what the cache answers for a key and an epoch after the stores of the log;
      inTick: whether evaluations are cached inside ticks or outside them;
      ticksMutate: whether a tick changes the state outside the effects it runs. */
  datatype Config<!C(!new), !K(!new), !V(!new)> = Config(
    eval: (C, int) -> V,
    key: C -> K,
    seen: C -> bool,
    lookup: (seq<Stored<K, V>>, K, nat) -> Option<V>,
    inTick: bool,
    ticksMutate: bool)

  /** What the theorem assumes of them: a cache answers only what was stored under that key and epoch,
      and contexts that meet in one run have different keys. */
  ghost predicate Sound<C(!new), K(!new), V(!new)>(g: Config<C, K, V>) {
    && (forall log, k, e :: g.lookup(log, k, e).Some? ==> Stored(k, e, g.lookup(log, k, e).value) in log)
    && (forall c, d :: g.seen(c) && g.seen(d) && g.key(c) == g.key(d) ==> c == d)
  }

  // ---- states --------------------------------------------------------------------------------

  /** Where a cached evaluation stands. The state and the quietness at the epoch read, and the number
      of mutations at the miss, are recorded for the statements only. */
  datatype Phase<V> =
    | Gated
    | EpochRead(epoch: nat, world: int, quiet: bool)
    | Served(value: V, world: int, quiet: bool)
    | Running(epoch: nat, version: nat)
    | Evaluated(epoch: nat, value: V)

  datatype Activity<C, V> =
    | Effect                                   // between the two bumps of an effect
    | TickEntered                              // in_tick raised, not bumped yet
    | Tick                                     // between the two bumps of a tick
    | TickLeaving                              // bumped, in_tick still raised
    | Handler(context: C, phase: Phase<V>)

  datatype Thread<C, K, V> = Thread(stack: seq<Activity<C, V>>, log: seq<Stored<K, V>>)

  /** version counts the mutations of the game state, world names the state. */
  datatype State<C, K, V> = State(epoch: nat, inTick: nat, world: int, version: nat,
                                  threads: seq<Thread<C, K, V>>)

  predicate MayMutate<C(!new), K(!new), V(!new)>(g: Config<C, K, V>, a: Activity<C, V>) {
    a.Effect? || (a.Tick? && g.ticksMutate)
  }

  ghost predicate QuietStack<C(!new), K(!new), V(!new)>(g: Config<C, K, V>, stack: seq<Activity<C, V>>) {
    forall i :: 0 <= i < |stack| ==> !MayMutate(g, stack[i])
  }

  /** No bracket that may mutate is open on any thread. */
  ghost predicate Quiet<C(!new), K(!new), V(!new)>(g: Config<C, K, V>, s: State<C, K, V>) {
    forall t :: 0 <= t < |s.threads| ==> QuietStack(g, s.threads[t].stack)
  }

  /** A thread may call into the engine's hooks when it is idle, inside a bracket or evaluating. */
  predicate MayCall<C(!new), V(!new)>(stack: seq<Activity<C, V>>) {
    stack == [] || var a := stack[|stack| - 1]; a.Effect? || a.Tick? || (a.Handler? && a.phase.Running?)
  }

  // ---- steps ---------------------------------------------------------------------------------

  datatype Step<C, V> =
    | EffectEnter
    | EffectLeave
    | TickRaise
    | TickBumpIn
    | TickBumpOut
    | TickDrop
    | FrameBump
    | Mutate(world: int)
    | HandlerEnter(context: C)
    | ReadEpoch
    | Hit
    | Miss
    | Evaluate(value: V)
    | Store
    | Discard
    | Return

  function Push<C, V>(stack: seq<Activity<C, V>>, a: Activity<C, V>): seq<Activity<C, V>> {
    stack + [a]
  }

  function Pop<C, V>(stack: seq<Activity<C, V>>): seq<Activity<C, V>>
    requires stack != []
  {
    stack[..|stack| - 1]
  }

  function Top<C, V>(stack: seq<Activity<C, V>>): Activity<C, V>
    requires stack != []
  {
    stack[|stack| - 1]
  }

  function SetStack<C, K, V>(s: State<C, K, V>, t: nat, stack: seq<Activity<C, V>>): (s': State<C, K, V>)
    requires t < |s.threads|
  {
    s.(threads := s.threads[t := s.threads[t].(stack := stack)])
  }

  /** May thread t take the step in s? */
  ghost predicate Enabled<C(!new), K(!new), V(!new)>(g: Config<C, K, V>, s: State<C, K, V>, t: nat, step: Step<C, V>)
    requires t < |s.threads|
  {
    var th := s.threads[t];
    var st := th.stack;
    match step
    case EffectEnter => MayCall(st)
    case EffectLeave => st != [] && Top(st).Effect?
    case TickRaise => MayCall(st)
    case TickBumpIn => st != [] && Top(st).TickEntered?
    case TickBumpOut => st != [] && Top(st).Tick?
    case TickDrop => st != [] && Top(st).TickLeaving? && s.inTick > 0
    case FrameBump => true
    case Mutate(_) => !Quiet(g, s)
    case HandlerEnter(c) => MayCall(st) && g.seen(c) && (s.inTick != 0 <==> g.inTick)
    case ReadEpoch => st != [] && Top(st).Handler? && Top(st).phase.Gated?
    case Hit => st != [] && Top(st).Handler? && Top(st).phase.EpochRead? &&
                g.lookup(th.log, g.key(Top(st).context), Top(st).phase.epoch).Some?
    case Miss => st != [] && Top(st).Handler? && Top(st).phase.EpochRead? &&
                 g.lookup(th.log, g.key(Top(st).context), Top(st).phase.epoch).None?
    // An evaluation that overlaps a mutation may return anything.
    case Evaluate(v) => st != [] && Top(st).Handler? && Top(st).phase.Running? &&
                        (s.version == Top(st).phase.version ==> v == g.eval(Top(st).context, s.world))
    case Store => st != [] && Top(st).Handler? && Top(st).phase.Evaluated?
    case Discard => st != [] && Top(st).Handler? && Top(st).phase.Evaluated?
    case Return => st != [] && Top(st).Handler? && Top(st).phase.Served?
  }

  function SetPhase<C, K, V>(s: State<C, K, V>, t: nat, phase: Phase<V>): State<C, K, V>
    requires t < |s.threads| && s.threads[t].stack != [] && Top(s.threads[t].stack).Handler?
  {
    var st := s.threads[t].stack;
    SetStack(s, t, Push(Pop(st), Handler(Top(st).context, phase)))
  }

  /** The state after the step. */
  ghost function Apply<C(!new), K(!new), V(!new)>(g: Config<C, K, V>, s: State<C, K, V>, t: nat, step: Step<C, V>)
    : (s': State<C, K, V>)
    requires t < |s.threads| && Enabled(g, s, t, step)
  {
    var th := s.threads[t];
    var st := th.stack;
    match step
    case EffectEnter => SetStack(s, t, Push(st, Effect)).(epoch := s.epoch + 1)
    case EffectLeave => SetStack(s, t, Pop(st)).(epoch := s.epoch + 1)
    case TickRaise => SetStack(s, t, Push(st, TickEntered)).(inTick := s.inTick + 1)
    case TickBumpIn => SetStack(s, t, Push(Pop(st), Tick)).(epoch := s.epoch + 1)
    case TickBumpOut => SetStack(s, t, Push(Pop(st), TickLeaving)).(epoch := s.epoch + 1)
    case TickDrop => SetStack(s, t, Pop(st)).(inTick := s.inTick - 1)
    case FrameBump => s.(epoch := s.epoch + 1)
    case Mutate(w) => s.(world := w, version := s.version + 1)
    case HandlerEnter(c) => SetStack(s, t, Push(st, Handler(c, Gated)))
    case ReadEpoch => SetPhase(s, t, EpochRead(s.epoch, s.world, Quiet(g, s)))
    case Hit =>
      var p := Top(st).phase;
      SetPhase(s, t, Served(g.lookup(th.log, g.key(Top(st).context), p.epoch).value, p.world, p.quiet))
    case Miss => SetPhase(s, t, Running(Top(st).phase.epoch, s.version))
    case Evaluate(v) => SetPhase(s, t, Evaluated(Top(st).phase.epoch, v))
    case Store =>
      var op := Stored(g.key(Top(st).context), Top(st).phase.epoch, Top(st).phase.value);
      s.(threads := s.threads[t := Thread(Pop(st), th.log + [op])])
    case Discard => SetStack(s, t, Pop(st))
    case Return => SetStack(s, t, Pop(st))
  }

  ghost predicate Initial<C(!new), K(!new), V(!new)>(s: State<C, K, V>) {
    && s.epoch == 1 && s.inTick == 0
    && forall t :: 0 <= t < |s.threads| ==> s.threads[t] == Thread([], [])
  }

  // ---- the invariant -------------------------------------------------------------------------

  /** What an entry of a log promises while its epoch lasts and no bracket is open. */
  ghost predicate EntryOk<C(!new), K(!new), V(!new)>(g: Config<C, K, V>, s: State<C, K, V>, op: Stored<K, V>) {
    && op.epoch <= s.epoch
    && (op.epoch == s.epoch && Quiet(g, s) ==>
          forall c :: g.seen(c) && g.key(c) == op.key ==> op.value == g.eval(c, s.world))
  }

  ghost predicate LogOk<C(!new), K(!new), V(!new)>(g: Config<C, K, V>, s: State<C, K, V>, log: seq<Stored<K, V>>) {
    forall op :: op in log ==> EntryOk(g, s, op)
  }

  /** What one activity promises, given the log of its thread. */
  ghost predicate ActivityOk<C(!new), K(!new), V(!new)>(g: Config<C, K, V>, s: State<C, K, V>, log: seq<Stored<K, V>>,
                                                        a: Activity<C, V>) {
    a.Handler? ==>
      var c := a.context;
      g.seen(c) &&
      match a.phase
      case Gated => true
      case EpochRead(e, w, quiet) =>
        && e <= s.epoch
        && (quiet ==> forall op :: op in log && op.key == g.key(c) && op.epoch == e ==> op.value == g.eval(c, w))
      case Served(v, w, quiet) => quiet ==> v == g.eval(c, w)
      case Running(e, version) => e <= s.epoch && (e == s.epoch && Quiet(g, s) ==> version == s.version)
      case Evaluated(e, v) => e <= s.epoch && (e == s.epoch && Quiet(g, s) ==> v == g.eval(c, s.world))
  }

  /** Only the top of a stack waits to look up, so a log does not change between read and lookup. */
  ghost predicate StackOk<C(!new), K(!new), V(!new)>(g: Config<C, K, V>, s: State<C, K, V>, th: Thread<C, K, V>) {
    && (forall i :: 0 <= i < |th.stack| ==> ActivityOk(g, s, th.log, th.stack[i]))
    && (forall i :: 0 <= i < |th.stack| - 1 ==> !(th.stack[i].Handler? && th.stack[i].phase.EpochRead?))
  }

  ghost predicate Inv<C(!new), K(!new), V(!new)>(g: Config<C, K, V>, s: State<C, K, V>) {
    forall t :: 0 <= t < |s.threads| ==> LogOk(g, s, s.threads[t].log) && StackOk(g, s, s.threads[t])
  }

  // ---- every step keeps it -------------------------------------------------------------------

  /** Steps that change one stack without opening or closing a bracket leave quietness as it was. */
  lemma QuietUnchanged<C(!new), K(!new), V(!new)>(g: Config<C, K, V>, s: State<C, K, V>, s': State<C, K, V>, t: nat)
    requires t < |s.threads| == |s'.threads|
    requires forall u :: 0 <= u < |s.threads| && u != t ==> s'.threads[u] == s.threads[u]
    requires QuietStack(g, s'.threads[t].stack) <==> QuietStack(g, s.threads[t].stack)
    ensures Quiet(g, s') <==> Quiet(g, s)
  {
    if Quiet(g, s) {
      forall u | 0 <= u < |s'.threads| ensures QuietStack(g, s'.threads[u].stack) {
        assert QuietStack(g, s.threads[u].stack);
      }
    }
    if Quiet(g, s') {
      forall u | 0 <= u < |s.threads| ensures QuietStack(g, s.threads[u].stack) {
        assert QuietStack(g, s'.threads[u].stack);
      }
    }
  }

  lemma QuietPush<C(!new), K(!new), V(!new)>(g: Config<C, K, V>, stack: seq<Activity<C, V>>, a: Activity<C, V>)
    requires !MayMutate(g, a)
    ensures QuietStack(g, stack + [a]) <==> QuietStack(g, stack)
  {
    var longer := stack + [a];
    assert forall i :: 0 <= i < |stack| ==> longer[i] == stack[i];
  }

  lemma QuietReplaceTop<C(!new), K(!new), V(!new)>(g: Config<C, K, V>, stack: seq<Activity<C, V>>, a: Activity<C, V>)
    requires stack != [] && !MayMutate(g, a) && !MayMutate(g, Top(stack))
    ensures QuietStack(g, Push(Pop(stack), a)) <==> QuietStack(g, stack)
    ensures QuietStack(g, Pop(stack)) <==> QuietStack(g, stack)
  {
    QuietPush(g, Pop(stack), a);
    QuietPush(g, Pop(stack), Top(stack));
    assert Pop(stack) + [Top(stack)] == stack;
  }

  /** A bump outdates every tag, so nothing is promised any more. */
  lemma BumpKeepsInv<C(!new), K(!new), V(!new)>(g: Config<C, K, V>, s: State<C, K, V>, s': State<C, K, V>, t: nat)
    requires Inv(g, s) && t < |s.threads| == |s'.threads| && s'.epoch == s.epoch + 1
    requires forall u :: 0 <= u < |s.threads| && u != t ==> s'.threads[u] == s.threads[u]
    requires s'.threads[t].log == s.threads[t].log
    requires var st, st' := s.threads[t].stack, s'.threads[t].stack;
             || st' == st
             || (MayCall(st) && st' == Push(st, Effect))
             || (st != [] && st' == Pop(st))
             || (st != [] && !Top(st).Handler? && st' in {Push(Pop(st), Tick), Push(Pop(st), TickLeaving)})
    ensures Inv(g, s')
  {
    forall u | 0 <= u < |s'.threads| ensures LogOk(g, s', s'.threads[u].log) && StackOk(g, s', s'.threads[u]) {
      var th, th' := s.threads[u], s'.threads[u];
      assert LogOk(g, s, th.log) && StackOk(g, s, th);
      forall op | op in th'.log ensures EntryOk(g, s', op) { assert EntryOk(g, s, op); }
      forall i | 0 <= i < |th'.stack| ensures ActivityOk(g, s', th'.log, th'.stack[i]) {
        if i < |th.stack| && th'.stack[i] == th.stack[i] {
          assert ActivityOk(g, s, th.log, th.stack[i]);
        }
      }
    }
  }

  lemma MutateKeepsInv<C(!new), K(!new), V(!new)>(g: Config<C, K, V>, s: State<C, K, V>, w: int)
    requires Inv(g, s) && !Quiet(g, s)
    ensures Inv(g, s.(world := w, version := s.version + 1))
  {
    var s' := s.(world := w, version := s.version + 1);
    assert !Quiet(g, s');
    forall u | 0 <= u < |s'.threads| ensures LogOk(g, s', s'.threads[u].log) && StackOk(g, s', s'.threads[u]) {
      var th := s.threads[u];
      assert LogOk(g, s, th.log) && StackOk(g, s, th);
      forall op | op in th.log ensures EntryOk(g, s', op) { assert EntryOk(g, s, op); }
      forall i | 0 <= i < |th.stack| ensures ActivityOk(g, s', th.log, th.stack[i]) {
        assert ActivityOk(g, s, th.log, th.stack[i]);
      }
    }
  }

  /** A step that touches one thread and neither the epoch nor the game state keeps the invariant when
      that thread stays in order. */
  lemma LocalStepKeepsInv<C(!new), K(!new), V(!new)>(g: Config<C, K, V>, s: State<C, K, V>, s': State<C, K, V>, t: nat)
    requires Inv(g, s) && t < |s.threads| == |s'.threads|
    requires s'.epoch == s.epoch && s'.world == s.world && s'.version == s.version
    requires forall u :: 0 <= u < |s.threads| && u != t ==> s'.threads[u] == s.threads[u]
    requires Quiet(g, s') <==> Quiet(g, s)
    requires LogOk(g, s, s'.threads[t].log) && StackOk(g, s, s'.threads[t])
    ensures Inv(g, s')
  {
    forall u | 0 <= u < |s'.threads| ensures LogOk(g, s', s'.threads[u].log) && StackOk(g, s', s'.threads[u]) {
      var th := s'.threads[u];
      assert LogOk(g, s, th.log) && StackOk(g, s, th);
      forall op | op in th.log ensures EntryOk(g, s', op) { assert EntryOk(g, s, op); }
      forall i | 0 <= i < |th.stack| ensures ActivityOk(g, s', th.log, th.stack[i]) {
        assert ActivityOk(g, s, th.log, th.stack[i]);
      }
    }
  }

  lemma PushKeepsInv<C(!new), K(!new), V(!new)>(g: Config<C, K, V>, s: State<C, K, V>, s': State<C, K, V>, t: nat,
                                                a: Activity<C, V>)
    requires Inv(g, s) && t < |s.threads| && MayCall(s.threads[t].stack)
    requires !MayMutate(g, a) && ActivityOk(g, s, s.threads[t].log, a)
    requires s' == SetStack(s, t, Push(s.threads[t].stack, a)).(inTick := s'.inTick)
    ensures Inv(g, s')
  {
    var th := s.threads[t];
    assert LogOk(g, s, th.log) && StackOk(g, s, th);
    QuietPush(g, th.stack, a);
    QuietUnchanged(g, s, s', t);
    LocalStepKeepsInv(g, s, s', t);
  }

  lemma PopKeepsInv<C(!new), K(!new), V(!new)>(g: Config<C, K, V>, s: State<C, K, V>, s': State<C, K, V>, t: nat,
                                               log: seq<Stored<K, V>>)
    requires Inv(g, s) && t < |s.threads| && s.threads[t].stack != []
    requires !MayMutate(g, Top(s.threads[t].stack))
    requires s' == s.(inTick := s'.inTick, threads := s.threads[t := Thread(Pop(s.threads[t].stack), log)])
    requires log == s.threads[t].log || (Top(s.threads[t].stack).Handler? && LogOk(g, s, log))
    ensures Inv(g, s')
  {
    var th, th' := s.threads[t], s'.threads[t];
    assert LogOk(g, s, th.log) && StackOk(g, s, th);
    QuietReplaceTop(g, th.stack, Top(th.stack));
    QuietUnchanged(g, s, s', t);
    forall i | 0 <= i < |th'.stack| ensures ActivityOk(g, s, log, th'.stack[i]) {
      assert ActivityOk(g, s, th.log, th.stack[i]);
    }
    LocalStepKeepsInv(g, s, s', t);
  }

  lemma PhaseKeepsInv<C(!new), K(!new), V(!new)>(g: Config<C, K, V>, s: State<C, K, V>, t: nat, phase: Phase<V>)
    requires Inv(g, s) && t < |s.threads| && s.threads[t].stack != [] && Top(s.threads[t].stack).Handler?
    requires ActivityOk(g, s, s.threads[t].log, Handler(Top(s.threads[t].stack).context, phase))
    ensures Inv(g, SetPhase(s, t, phase))
  {
    var th, s' := s.threads[t], SetPhase(s, t, phase);
    assert LogOk(g, s, th.log) && StackOk(g, s, th);
    QuietReplaceTop(g, th.stack, Handler(Top(th.stack).context, phase));
    QuietUnchanged(g, s, s', t);
    var th' := s'.threads[t];
    forall i | 0 <= i < |th'.stack| ensures ActivityOk(g, s, th'.log, th'.stack[i]) {
      if i < |th.stack| - 1 { assert ActivityOk(g, s, th.log, th.stack[i]); }
    }
    LocalStepKeepsInv(g, s, s', t);
  }

  lemma HandlerStepKeepsInv<C(!new), K(!new), V(!new)>(g: Config<C, K, V>, s: State<C, K, V>, t: nat, step: Step<C, V>)
    requires Sound(g) && Inv(g, s) && t < |s.threads| && Enabled(g, s, t, step)
    requires step.ReadEpoch? || step.Hit? || step.Miss? || step.Evaluate? || step.Store?
    ensures Inv(g, Apply(g, s, t, step))
  {
    var th := s.threads[t];
    var a := Top(th.stack);
    var c := a.context;
    assert LogOk(g, s, th.log) && StackOk(g, s, th);
    assert ActivityOk(g, s, th.log, a);
    match step
    case ReadEpoch =>
      if Quiet(g, s) {
        forall op | op in th.log && op.key == g.key(c) && op.epoch == s.epoch ensures op.value == g.eval(c, s.world) {
          assert EntryOk(g, s, op);
        }
      }
      PhaseKeepsInv(g, s, t, EpochRead(s.epoch, s.world, Quiet(g, s)));
    case Hit =>
      PhaseKeepsInv(g, s, t, Served(g.lookup(th.log, g.key(c), a.phase.epoch).value, a.phase.world, a.phase.quiet));
    case Miss => PhaseKeepsInv(g, s, t, Running(a.phase.epoch, s.version));
    case Evaluate(v) => PhaseKeepsInv(g, s, t, Evaluated(a.phase.epoch, v));
    case Store =>
      var op := Stored(g.key(c), a.phase.epoch, a.phase.value);
      forall o | o in th.log + [op] ensures EntryOk(g, s, o) {
        if o in th.log { assert EntryOk(g, s, o); }
      }
      PopKeepsInv(g, s, Apply(g, s, t, step), t, th.log + [op]);
  }

  lemma StepKeepsInv<C(!new), K(!new), V(!new)>(g: Config<C, K, V>, s: State<C, K, V>, t: nat, step: Step<C, V>)
    requires Sound(g) && Inv(g, s) && t < |s.threads| && Enabled(g, s, t, step)
    ensures Inv(g, Apply(g, s, t, step))
  {
    var s' := Apply(g, s, t, step);
    match step
    case EffectEnter => BumpKeepsInv(g, s, s', t);
    case EffectLeave => BumpKeepsInv(g, s, s', t);
    case TickBumpIn => BumpKeepsInv(g, s, s', t);
    case TickBumpOut => BumpKeepsInv(g, s, s', t);
    case FrameBump => BumpKeepsInv(g, s, s', t);
    case Mutate(w) => MutateKeepsInv(g, s, w);
    case TickRaise => PushKeepsInv(g, s, s', t, TickEntered);
    case HandlerEnter(c) => PushKeepsInv(g, s, s', t, Handler(c, Gated));
    case TickDrop => PopKeepsInv(g, s, s', t, s.threads[t].log);
    case Discard => PopKeepsInv(g, s, s', t, s.threads[t].log);
    case Return => PopKeepsInv(g, s, s', t, s.threads[t].log);
    case _ => HandlerStepKeepsInv(g, s, t, step);
  }

  // ---- runs ----------------------------------------------------------------------------------

  datatype Move<C, V> = Move(thread: nat, step: Step<C, V>)

  /** The moves can be made one after the other, and end in the state last. */
  ghost predicate Runs<C(!new), K(!new), V(!new)>(g: Config<C, K, V>, s: State<C, K, V>, moves: seq<Move<C, V>>,
                                                  last: State<C, K, V>)
    decreases |moves|
  {
    if moves == [] then s == last
    else
      var m := moves[0];
      && m.thread < |s.threads| && Enabled(g, s, m.thread, m.step)
      && Runs(g, Apply(g, s, m.thread, m.step), moves[1..], last)
  }

  lemma {:induction false} RunKeepsInv<C(!new), K(!new), V(!new)>(
      g: Config<C, K, V>, s: State<C, K, V>, moves: seq<Move<C, V>>, last: State<C, K, V>)
    requires Sound(g) && Inv(g, s) && Runs(g, s, moves, last)
    ensures Inv(g, last)
    decreases |moves|
  {
    if moves != [] {
      var m := moves[0];
      StepKeepsInv(g, s, m.thread, m.step);
      RunKeepsInv(g, Apply(g, s, m.thread, m.step), moves[1..], last);
    }
  }

  /** In every run, a hit whose epoch was read while no mutating bracket was open is what the evaluator
      would have returned in the state at that read. */
  lemma QuietHitsAreExact<C(!new), K(!new), V(!new)>(g: Config<C, K, V>, s: State<C, K, V>, moves: seq<Move<C, V>>,
                                                     last: State<C, K, V>, t: nat, i: nat)
    requires Sound(g) && Initial(s) && Runs(g, s, moves, last)
    requires t < |last.threads| && i < |last.threads[t].stack|
    requires var a := last.threads[t].stack[i]; a.Handler? && a.phase.Served? && a.phase.quiet
    ensures var a := last.threads[t].stack[i]; a.phase.value == g.eval(a.context, a.phase.world)
  {
    RunKeepsInv(g, s, moves, last);
    assert StackOk(g, last, last.threads[t]);
    assert ActivityOk(g, last, last.threads[t].log, last.threads[t].stack[i]);
  }

  /** In every run, while no mutating bracket is open, an entry of the current epoch in any thread's log
      holds what the evaluator returns now. */
  lemma QuietEntriesAreCurrent<C(!new), K(!new), V(!new)>(g: Config<C, K, V>, s0: State<C, K, V>,
                                                          moves: seq<Move<C, V>>, s: State<C, K, V>,
                                                          t: nat, op: Stored<K, V>, c: C)
    requires Sound(g) && Initial(s0) && Runs(g, s0, moves, s) && Quiet(g, s)
    requires t < |s.threads| && op in s.threads[t].log && op.epoch == s.epoch && g.seen(c) && op.key == g.key(c)
    ensures op.value == g.eval(c, s.world)
  {
    RunKeepsInv(g, s0, moves, s);
    assert LogOk(g, s, s.threads[t].log);
    assert EntryOk(g, s, op);
  }

  // ---- one call, uninterrupted ---------------------------------------------------------------

  lemma RunsOn<C(!new), K(!new), V(!new)>(g: Config<C, K, V>, s: State<C, K, V>, t: nat, step: Step<C, V>,
                                          rest: seq<Move<C, V>>, last: State<C, K, V>)
    requires t < |s.threads| && Enabled(g, s, t, step) && Runs(g, Apply(g, s, t, step), rest, last)
    ensures Runs(g, s, [Move(t, step)] + rest, last)
  {
    var moves := [Move(t, step)] + rest;
    assert moves[0] == Move(t, step) && moves[1..] == rest;
  }

  /** Thread t with the phase of its topmost evaluation. */
  ghost predicate Calling<C(!new), K(!new), V(!new)>(s: State<C, K, V>, t: nat, below: seq<Activity<C, V>>,
                                                     log: seq<Stored<K, V>>, c: C, phase: Phase<V>) {
    t < |s.threads| && s.threads[t] == Thread(Push(below, Handler(c, phase)), log)
  }

  lemma TopOfPush<C(!new), V(!new)>(stack: seq<Activity<C, V>>, a: Activity<C, V>)
    ensures Top(Push(stack, a)) == a && Pop(Push(stack, a)) == stack
  {
  }

  ghost predicate SameShared<C(!new), K(!new), V(!new)>(s: State<C, K, V>, s': State<C, K, V>) {
    s'.epoch == s.epoch && s'.world == s.world && s'.version == s.version
  }

  lemma EnterStep<C(!new), K(!new), V(!new)>(g: Config<C, K, V>, s: State<C, K, V>, t: nat, c: C)
    requires t < |s.threads| && MayCall(s.threads[t].stack) && g.seen(c) && (s.inTick != 0 <==> g.inTick)
    ensures Enabled(g, s, t, HandlerEnter(c))
    ensures var s' := Apply(g, s, t, HandlerEnter(c));
            && SameShared(s, s') && Calling(s', t, s.threads[t].stack, s.threads[t].log, c, Gated)
            && (Quiet(g, s') <==> Quiet(g, s))
  {
    hide Quiet, QuietStack;
    QuietPush(g, s.threads[t].stack, Handler(c, Gated));
    QuietUnchanged(g, s, Apply(g, s, t, HandlerEnter(c)), t);
  }

  lemma ReadStep<C(!new), K(!new), V(!new)>(g: Config<C, K, V>, s: State<C, K, V>, t: nat, below: seq<Activity<C, V>>,
                                            log: seq<Stored<K, V>>, c: C)
    requires Calling(s, t, below, log, c, Gated)
    ensures Enabled(g, s, t, Step<C, V>.ReadEpoch)
    ensures var s' := Apply(g, s, t, Step<C, V>.ReadEpoch);
            SameShared(s, s') && Calling(s', t, below, log, c, EpochRead(s.epoch, s.world, Quiet(g, s)))
  {
    hide Quiet;
    TopOfPush(below, Handler(c, Gated));
  }

  lemma LookupStep<C(!new), K(!new), V(!new)>(g: Config<C, K, V>, s: State<C, K, V>, t: nat, below: seq<Activity<C, V>>,
                                              log: seq<Stored<K, V>>, c: C, e: nat, w: int, quiet: bool)
    requires Calling(s, t, below, log, c, EpochRead(e, w, quiet))
    ensures var hit := g.lookup(log, g.key(c), e);
            var step := if hit.Some? then Step<C, V>.Hit else Miss;
            && Enabled(g, s, t, step)
            && Calling(Apply(g, s, t, step), t, below, log, c,
                       if hit.Some? then Served(hit.value, w, quiet) else Running(e, s.version))
  {
    TopOfPush(below, Handler(c, EpochRead(e, w, quiet)));
  }

  /** A call reads the epoch and looks up: it is served what its thread's cache answers, or goes on to
      evaluate. */
  lemma CallBegins<C(!new), K(!new), V(!new)>(g: Config<C, K, V>, s: State<C, K, V>, t: nat, c: C)
      returns (moves: seq<Move<C, V>>, last: State<C, K, V>, quiet: bool)
    requires t < |s.threads| && MayCall(s.threads[t].stack) && g.seen(c) && (s.inTick != 0 <==> g.inTick)
    ensures Runs(g, s, moves, last) && (quiet <==> Quiet(g, s))
    ensures var hit := g.lookup(s.threads[t].log, g.key(c), s.epoch);
            Calling(last, t, s.threads[t].stack, s.threads[t].log, c,
                    if hit.Some? then Served(hit.value, s.world, quiet) else Running(s.epoch, s.version))
  {
    hide Quiet, Apply, Enabled, Calling;
    var below, log := s.threads[t].stack, s.threads[t].log;
    var hit := g.lookup(log, g.key(c), s.epoch);
    EnterStep(g, s, t, c);
    InRange(s, t, HandlerEnter(c), g, below, log, c, Gated);
    var s1 := Apply(g, s, t, HandlerEnter(c));
    ReadStep(g, s1, t, below, log, c);
    quiet := Quiet(g, s1);
    InRange(s1, t, Step<C, V>.ReadEpoch, g, below, log, c, EpochRead(s.epoch, s.world, quiet));
    var s2 := Apply(g, s1, t, Step<C, V>.ReadEpoch);
    LookupStep(g, s2, t, below, log, c, s.epoch, s.world, quiet);
    var step := if hit.Some? then Step<C, V>.Hit else Miss;
    last := Apply(g, s2, t, step);
    RunsOn(g, s2, t, step, [], last);
    RunsOn(g, s1, t, Step<C, V>.ReadEpoch, [Move(t, step)] + [], last);
    RunsOn(g, s, t, HandlerEnter(c), [Move(t, Step<C, V>.ReadEpoch)] + ([Move(t, step)] + []), last);
    moves := [Move(t, Step<C, V>.HandlerEnter(c))] + ([Move(t, Step<C, V>.ReadEpoch)] + ([Move(t, step)] + []));
  }

  lemma InRange<C(!new), K(!new), V(!new)>(s: State<C, K, V>, t: nat, step: Step<C, V>, g: Config<C, K, V>,
                                           below: seq<Activity<C, V>>, log: seq<Stored<K, V>>, c: C, phase: Phase<V>)
    requires t < |s.threads| && Enabled(g, s, t, step) && Calling(Apply(g, s, t, step), t, below, log, c, phase)
    ensures t < |Apply(g, s, t, step).threads|
  {
  }

  lemma EvaluateStep<C(!new), K(!new), V(!new)>(g: Config<C, K, V>, s: State<C, K, V>, t: nat,
                                                below: seq<Activity<C, V>>, log: seq<Stored<K, V>>,
                                                c: C, e: nat, version: nat, v: V)
    requires Calling(s, t, below, log, c, Running(e, version)) && (s.version == version ==> v == g.eval(c, s.world))
    ensures Enabled(g, s, t, Evaluate(v))
    ensures t < |Apply(g, s, t, Evaluate(v)).threads|
            && Calling(Apply(g, s, t, Evaluate(v)), t, below, log, c, Evaluated(e, v))
  {
    TopOfPush(below, Handler(c, Running(e, version)));
  }

  lemma StoreStep<C(!new), K(!new), V(!new)>(g: Config<C, K, V>, s: State<C, K, V>, t: nat, below: seq<Activity<C, V>>,
                                             log: seq<Stored<K, V>>, c: C, e: nat, v: V, keep: bool)
    requires Calling(s, t, below, log, c, Evaluated(e, v))
    ensures var step := if keep then Step<C, V>.Store else Discard;
            && Enabled(g, s, t, step) && t < |Apply(g, s, t, step).threads|
            && Apply(g, s, t, step).threads[t] == Thread(below, if keep then log + [Stored(g.key(c), e, v)] else log)
  {
    TopOfPush(below, Handler(c, Evaluated(e, v)));
  }

  /** After its evaluation a call stores the result under the epoch it read, or discards it. */
  lemma CallEnds<C(!new), K(!new), V(!new)>(g: Config<C, K, V>, s: State<C, K, V>, t: nat, below: seq<Activity<C, V>>,
                                            log: seq<Stored<K, V>>, c: C, e: nat, version: nat, v: V, keep: bool)
      returns (moves: seq<Move<C, V>>, last: State<C, K, V>)
    requires Calling(s, t, below, log, c, Running(e, version)) && (s.version == version ==> v == g.eval(c, s.world))
    ensures Runs(g, s, moves, last) && t < |last.threads|
    ensures last.threads[t] == Thread(below, if keep then log + [Stored(g.key(c), e, v)] else log)
  {
    hide Apply, Enabled;
    EvaluateStep(g, s, t, below, log, c, e, version, v);
    var s1 := Apply(g, s, t, Evaluate(v));
    StoreStep(g, s1, t, below, log, c, e, v, keep);
    var step := if keep then Step<C, V>.Store else Discard;
    last := Apply(g, s1, t, step);
    RunsOn(g, s1, t, step, [], last);
    RunsOn(g, s, t, Evaluate(v), [Move(t, step)] + [], last);
    moves := [Move(t, Step<C, V>.Evaluate(v))] + ([Move(t, step)] + []);
  }

  // ---- why the read must be quiet ------------------------------------------------------------

  lemma RunsFrom<C(!new), K(!new), V(!new)>(g: Config<C, K, V>, s: State<C, K, V>, step: Step<C, V>,
                                            rest: seq<Move<C, V>>, last: State<C, K, V>)
    requires |s.threads| == 1 && Enabled(g, s, 0, step)
    requires Runs(g, Apply(g, s, 0, step), rest, last)
    ensures Runs(g, s, [Move(0, step)] + rest, last)
  {
    var moves := [Move(0, step)] + rest;
    assert moves[0] == Move(0, step) && moves[1..] == rest;
  }

  /** The single-threaded state s with an evaluation of c on top, in the given phase. */
  function At<C(!new), K(!new), V(!new)>(s: State<C, K, V>, c: C, phase: Phase<V>): State<C, K, V>
    requires |s.threads| == 1
  {
    s.(threads := [Thread(Push(s.threads[0].stack, Handler(c, phase)), s.threads[0].log)])
  }

  lemma AtMoves<C(!new), K(!new), V(!new)>(s: State<C, K, V>, c: C, p: Phase<V>, q: Phase<V>)
    requires |s.threads| == 1
    ensures var st := At(s, c, p).threads[0].stack;
            st != [] && Top(st) == Handler(c, p) && Pop(st) == s.threads[0].stack
    ensures SetPhase(At(s, c, p), 0, q) == At(s, c, q)
    ensures SetStack(s, 0, Push(s.threads[0].stack, Handler(c, q))) == At(s, c, q)
  {
  }

  /** A first evaluation of c misses, and stores what the evaluator returns. */
  lemma MissAndStore<C(!new), K(!new), V(!new)>(g: Config<C, K, V>, s: State<C, K, V>, c: C,
                                                rest: seq<Move<C, V>>, last: State<C, K, V>)
      returns (moves: seq<Move<C, V>>)
    requires |s.threads| == 1 && MayCall(s.threads[0].stack) && s.threads[0].log == []
    requires g.seen(c) && (s.inTick != 0 <==> g.inTick) && g.lookup([], g.key(c), s.epoch) == None
    requires Runs(g, s.(threads := [Thread(s.threads[0].stack, [Stored(g.key(c), s.epoch, g.eval(c, s.world))])]),
                  rest, last)
    ensures Runs(g, s, moves, last)
  {
    hide Runs, Quiet, SetPhase, SetStack, Push, Pop, Top;
    var v, e := g.eval(c, s.world), s.epoch;
    var read := EpochRead(e, s.world, Quiet(g, At(s, c, Gated)));
    AtMoves(s, c, Gated, read);
    AtMoves(s, c, read, Running(e, s.version));
    AtMoves(s, c, Running(e, s.version), Evaluated(e, v));
    AtMoves(s, c, Evaluated(e, v), Gated);
    StoreMoves(g, s, c, e, v);
    RunsFrom(g, At(s, c, Evaluated(e, v)), Store, rest, last);
    moves := [Move(0, Step<C, V>.Store)] + rest;
    RunsFrom(g, At(s, c, Running(e, s.version)), Evaluate(v), moves, last);
    moves := [Move(0, Step<C, V>.Evaluate(v))] + moves;
    RunsFrom(g, At(s, c, read), Miss, moves, last);
    moves := [Move(0, Step<C, V>.Miss)] + moves;
    RunsFrom(g, At(s, c, Gated), ReadEpoch, moves, last);
    moves := [Move(0, Step<C, V>.ReadEpoch)] + moves;
    RunsFrom(g, s, HandlerEnter(c), moves, last);
    moves := [Move(0, Step<C, V>.HandlerEnter(c))] + moves;
  }

  lemma StoreMoves<C(!new), K(!new), V(!new)>(g: Config<C, K, V>, s: State<C, K, V>, c: C, e: nat, v: V)
    requires |s.threads| == 1 && s.threads[0].log == []
    ensures var s' := At(s, c, Evaluated(e, v));
            Enabled(g, s', 0, Step<C, V>.Store) &&
            Apply(g, s', 0, Step<C, V>.Store) == s.(threads := [Thread(s.threads[0].stack, [Stored(g.key(c), e, v)])])
  {
    AtMoves(s, c, Evaluated(e, v), Gated);
    var op := Stored(g.key(c), e, v);
    assert [] + [op] == [op];
    assert Apply(g, At(s, c, Evaluated(e, v)), 0, Step<C, V>.Store).threads == [Thread(s.threads[0].stack, [op])];
  }

  lemma NotQuiet<C(!new), K(!new), V(!new)>(g: Config<C, K, V>, s: State<C, K, V>, i: nat)
    requires |s.threads| == 1 && i < |s.threads[0].stack| && s.threads[0].stack[i] == Effect
    ensures !Quiet(g, s)
  {
    assert MayMutate(g, s.threads[0].stack[i]);
    assert !QuietStack(g, s.threads[0].stack);
  }

  /** The effect mutates, and a second evaluation of c inside it hits the entry stored before. */
  lemma MutateAndHit<C(!new), K(!new), V(!new)>(g: Config<C, K, V>, s: State<C, K, V>, c: C, v: V, world: int)
      returns (moves: seq<Move<C, V>>, last: State<C, K, V>)
    requires |s.threads| == 1 && s.threads[0].stack != [] && Top(s.threads[0].stack) == Effect
    requires g.seen(c) && (s.inTick != 0 <==> g.inTick)
    requires g.lookup(s.threads[0].log, g.key(c), s.epoch) == Some(v)
    ensures Runs(g, s, moves, last) && |last.threads| > 0 && last.threads[0].stack != []
    ensures Top(last.threads[0].stack) == Handler(c, Served(v, world, false))
  {
    hide Quiet, Runs;
    NotQuiet(g, s, |s.threads[0].stack| - 1);
    var s1 := Apply(g, s, 0, Mutate(world));
    NotQuiet(g, s1, |s.threads[0].stack| - 1);
    var quiet: bool;
    moves, last, quiet := CallBegins(g, s1, 0, c);
    RunsFrom(g, s, Mutate(world), moves, last);
    moves := [Move(0, Step<C, V>.Mutate(world))] + moves;
    TopOfPush(s.threads[0].stack, Handler(c, Served(v, world, false)));
  }

  /** A thread evaluates a context inside an effect, the effect mutates, and the thread evaluates the
      context again inside the same effect: no bump lies between, so the old result is served. */
  lemma EvaluateMutateHit<C(!new), K(!new), V(!new)>(g: Config<C, K, V>, s: State<C, K, V>, c: C, world: int)
      returns (moves: seq<Move<C, V>>, last: State<C, K, V>)
    requires |s.threads| == 1 && s.threads[0].stack != [] && Top(s.threads[0].stack) == Effect && s.threads[0].log == []
    requires g.seen(c) && (s.inTick != 0 <==> g.inTick)
    requires g.lookup([], g.key(c), s.epoch) == None
    requires var v := g.eval(c, s.world); g.lookup([Stored(g.key(c), s.epoch, v)], g.key(c), s.epoch) == Some(v)
    ensures Runs(g, s, moves, last) && |last.threads| > 0 && last.threads[0].stack != []
    ensures Top(last.threads[0].stack) == Handler(c, Served(g.eval(c, s.world), world, false))
  {
    var v := g.eval(c, s.world);
    var mid := s.(threads := [Thread(s.threads[0].stack, [Stored(g.key(c), s.epoch, v)])]);
    moves, last := MutateAndHit(g, mid, c, v, world);
    moves := MissAndStore(g, s, c, moves, last);
  }

  /** Whenever the evaluator tells two states apart on some context, there is a run whose hit, read
      while an effect is open, differs from the evaluator in the state at that read. */
  lemma NoisyHitCanBeStale<C(!new), K(!new), V(!new)>(g: Config<C, K, V>, c: C, w0: int, w1: int)
      returns (s: State<C, K, V>, moves: seq<Move<C, V>>, last: State<C, K, V>)
    requires g.seen(c) && g.eval(c, w0) != g.eval(c, w1)
    requires forall e :: g.lookup([], g.key(c), e) == None
    requires forall e, v :: g.lookup([Stored(g.key(c), e, v)], g.key(c), e) == Some(v)
    ensures Initial(s) && Runs(g, s, moves, last) && |last.threads| > 0 && last.threads[0].stack != []
    ensures var a := Top(last.threads[0].stack);
            a.Handler? && a.phase.Served? && !a.phase.quiet && a.phase.value != g.eval(a.context, a.phase.world)
  {
    s := State(1, 0, w0, 0, [Thread([], [])]);
    if g.inTick {
      var s1 := Apply(g, s, 0, TickRaise);
      var s2 := Apply(g, s1, 0, TickBumpIn);
      var s3 := Apply(g, s2, 0, EffectEnter);
      moves, last := EvaluateMutateHit(g, s3, c, w1);
      RunsFrom(g, s2, EffectEnter, moves, last); moves := [Move(0, Step<C, V>.EffectEnter)] + moves;
      RunsFrom(g, s1, TickBumpIn, moves, last);  moves := [Move(0, Step<C, V>.TickBumpIn)] + moves;
      RunsFrom(g, s, TickRaise, moves, last);    moves := [Move(0, Step<C, V>.TickRaise)] + moves;
    } else {
      var s1 := Apply(g, s, 0, EffectEnter);
      moves, last := EvaluateMutateHit(g, s1, c, w1);
      RunsFrom(g, s, EffectEnter, moves, last);  moves := [Move(0, Step<C, V>.EffectEnter)] + moves;
    }
  }
}
