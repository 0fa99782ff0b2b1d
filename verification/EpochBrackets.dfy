/** What the bumps of the epoch protocol do: each makes everything cached before it unreachable, so a bracket
    never sees an entry from before it was opened. */
module EpochBrackets {
  import opened Wrappers
  import opened CacheLog
  import opened EpochProtocol
  import opened Sums

  /** The steps that bump: both sides of an effect and of a tick, and the frame bump. */
  predicate Bumps<C, V>(step: Step<C, V>) {
    step.EffectEnter? || step.EffectLeave? || step.TickBumpIn? || step.TickBumpOut? || step.FrameBump?
  }

  /** The epoch an evaluation has read and not done with. */
  function Pending<C, V>(a: Activity<C, V>): Option<nat> {
    if !a.Handler? then None
    else
      match a.phase
      case EpochRead(e, _, _) => Some(e)
      case Running(e, _) => Some(e)
      case Evaluated(e, _) => Some(e)
      case _ => None
  }

  /** No entry and no pending evaluation carries epoch e or a later one. */
  ghost predicate Untouched<C(!new), K(!new), V(!new)>(s: State<C, K, V>, e: nat) {
    forall t :: 0 <= t < |s.threads| ==>
      && (forall op :: op in s.threads[t].log ==> op.epoch < e)
      && (forall i :: 0 <= i < |s.threads[t].stack| && Pending(s.threads[t].stack[i]).Some? ==>
            Pending(s.threads[t].stack[i]).value < e)
  }

  lemma InvBounds<C(!new), K(!new), V(!new)>(g: Config<C, K, V>, s: State<C, K, V>)
    requires Inv(g, s)
    ensures Untouched(s, s.epoch + 1)
  {
    forall t | 0 <= t < |s.threads|
      ensures forall op :: op in s.threads[t].log ==> op.epoch <= s.epoch
      ensures forall i :: 0 <= i < |s.threads[t].stack| && Pending(s.threads[t].stack[i]).Some? ==>
                Pending(s.threads[t].stack[i]).value <= s.epoch
    {
      var th := s.threads[t];
      assert LogOk(g, s, th.log) && StackOk(g, s, th);
      forall op | op in th.log ensures op.epoch <= s.epoch { assert EntryOk(g, s, op); }
      forall i | 0 <= i < |th.stack| && Pending(th.stack[i]).Some? ensures Pending(th.stack[i]).value <= s.epoch {
        assert ActivityOk(g, s, th.log, th.stack[i]);
      }
    }
  }

  /** Opening or closing a bracket starts a new epoch: nothing cached or pending belongs to it, so every
      lookup under it misses, on every thread and for every key. */
  lemma BumpStartsAfresh<C(!new), K(!new), V(!new)>(g: Config<C, K, V>, s0: State<C, K, V>, moves: seq<Move<C, V>>,
                                                    s: State<C, K, V>, t: nat, step: Step<C, V>)
    requires Sound(g) && Initial(s0) && Runs(g, s0, moves, s)
    requires t < |s.threads| && Enabled(g, s, t, step) && Bumps(step)
    ensures var s' := Apply(g, s, t, step);
            && Untouched(s', s'.epoch)
            && forall u, k :: 0 <= u < |s'.threads| ==> g.lookup(s'.threads[u].log, k, s'.epoch) == None
  {
    hide Quiet, Runs;
    var s' := Apply(g, s, t, step);
    RunKeepsInv(g, s0, moves, s);
    InvBounds(g, s);
    StackAfterBump(g, s, t, step);
    forall u, k | 0 <= u < |s'.threads| ensures g.lookup(s'.threads[u].log, k, s'.epoch) == None {
      var hit := g.lookup(s'.threads[u].log, k, s'.epoch);
      assert hit.Some? ==> Stored(k, s'.epoch, hit.value) in s.threads[u].log;
    }
  }

  /** A bump changes one stack, by a bracket. */
  lemma StackAfterBump<C(!new), K(!new), V(!new)>(g: Config<C, K, V>, s: State<C, K, V>, t: nat, step: Step<C, V>)
    requires t < |s.threads| && Enabled(g, s, t, step) && Bumps(step)
    ensures var s' := Apply(g, s, t, step);
            && s'.epoch == s.epoch + 1 && |s'.threads| == |s.threads|
            && (forall u :: 0 <= u < |s.threads| ==> s'.threads[u].log == s.threads[u].log)
            && (forall u, i ::
                  0 <= u < |s.threads| && 0 <= i < |s'.threads[u].stack| && Pending(s'.threads[u].stack[i]).Some? ==>
                  i < |s.threads[u].stack| && s'.threads[u].stack[i] == s.threads[u].stack[i])
  {
    hide Quiet;
  }

  // ---- runs from a bump on -------------------------------------------------------------------

  /** The state after the first n moves. */
  ghost function StateAt<C(!new), K(!new), V(!new)>(g: Config<C, K, V>, s: State<C, K, V>, moves: seq<Move<C, V>>,
                                                    last: State<C, K, V>, n: nat): State<C, K, V>
    requires Runs(g, s, moves, last) && n <= |moves|
    decreases |moves|
  {
    if n == 0 then s else StateAt(g, Apply(g, s, moves[0].thread, moves[0].step), moves[1..], last, n - 1)
  }

  lemma {:induction false} StateSteps<C(!new), K(!new), V(!new)>(
      g: Config<C, K, V>, s: State<C, K, V>, moves: seq<Move<C, V>>, last: State<C, K, V>, n: nat)
    requires Runs(g, s, moves, last) && n < |moves|
    ensures var a, m := StateAt(g, s, moves, last, n), moves[n];
            && m.thread < |a.threads| && Enabled(g, a, m.thread, m.step)
            && StateAt(g, s, moves, last, n + 1) == Apply(g, a, m.thread, m.step)
    decreases |moves|
  {
    hide Enabled, Apply;
    if n > 0 {
      StateSteps(g, Apply(g, s, moves[0].thread, moves[0].step), moves[1..], last, n - 1);
    }
  }

  lemma {:induction false} StateAtEnd<C(!new), K(!new), V(!new)>(
      g: Config<C, K, V>, s: State<C, K, V>, moves: seq<Move<C, V>>, last: State<C, K, V>)
    requires Runs(g, s, moves, last)
    ensures StateAt(g, s, moves, last, |moves|) == last
    decreases |moves|
  {
    hide Enabled, Apply;
    if moves != [] { StateAtEnd(g, Apply(g, s, moves[0].thread, moves[0].step), moves[1..], last); }
  }

  /** Move m of the run is thread t reading epoch e. */
  ghost predicate Reads<C(!new), K(!new), V(!new)>(g: Config<C, K, V>, s: State<C, K, V>, moves: seq<Move<C, V>>,
                                                   last: State<C, K, V>, m: nat, t: nat, e: nat) {
    && Runs(g, s, moves, last) && m < |moves|
    && moves[m] == Move(t, ReadEpoch) && StateAt(g, s, moves, last, m).epoch == e
  }

  /** What one step can do to a thread's pending epochs and log. */
  lemma StepOrigins<C(!new), K(!new), V(!new)>(g: Config<C, K, V>, s: State<C, K, V>, t: nat, step: Step<C, V>, u: nat)
    requires t < |s.threads| && u < |s.threads| && Enabled(g, s, t, step)
    ensures var s' := Apply(g, s, t, step);
            && |s'.threads| == |s.threads|
            && (forall i :: 0 <= i < |s'.threads[u].stack| && Pending(s'.threads[u].stack[i]).Some? ==>
                  || (i < |s.threads[u].stack| && Pending(s.threads[u].stack[i]) == Pending(s'.threads[u].stack[i]))
                  || (t == u && step.ReadEpoch? && Pending(s'.threads[u].stack[i]) == Some(s.epoch)))
            && (forall op :: op in s'.threads[u].log ==>
                  || op in s.threads[u].log
                  || (t == u && step.Store? && s.threads[u].stack != []
                      && Pending(Top(s.threads[u].stack)) == Some(op.epoch)))
  {
    hide Quiet, Sound;
  }

  /** A pending evaluation that carries an epoch untouched at the start read it in the run. */
  lemma {:induction false} PendingWasRead<C(!new), K(!new), V(!new)>(
      g: Config<C, K, V>, s: State<C, K, V>, moves: seq<Move<C, V>>, last: State<C, K, V>,
      n: nat, t: nat, i: nat, e: nat)
      returns (m: nat)
    requires Runs(g, s, moves, last) && n <= |moves| && Untouched(s, e)
    requires var a := StateAt(g, s, moves, last, n);
             t < |a.threads| && i < |a.threads[t].stack| && Pending(a.threads[t].stack[i]) == Some(e)
    ensures m < n && Reads(g, s, moves, last, m, t, e)
    decreases n
  {
    hide Runs, Apply, Enabled, Pending;
    if n == 0 {
      StateAtStart(g, s, moves, last);
    } else {
      var a, move := StateAt(g, s, moves, last, n - 1), moves[n - 1];
      StateSteps(g, s, moves, last, n - 1);
      ThreadsStay(g, a, move.thread, move.step);
      StepOrigins(g, a, move.thread, move.step, t);
      if i < |a.threads[t].stack| && Pending(a.threads[t].stack[i]) == Some(e) {
        m := PendingWasRead(g, s, moves, last, n - 1, t, i, e);
      } else {
        m := n - 1;
      }
    }
  }

  lemma StateAtStart<C(!new), K(!new), V(!new)>(g: Config<C, K, V>, s: State<C, K, V>, moves: seq<Move<C, V>>,
                                                last: State<C, K, V>)
    requires Runs(g, s, moves, last)
    ensures StateAt(g, s, moves, last, 0) == s
  {
  }

  lemma ThreadsStay<C(!new), K(!new), V(!new)>(g: Config<C, K, V>, s: State<C, K, V>, t: nat, step: Step<C, V>)
    requires t < |s.threads| && Enabled(g, s, t, step)
    ensures |Apply(g, s, t, step).threads| == |s.threads|
  {
  }

  /** An entry of an epoch untouched at the start was stored in the run, by an evaluation that had read the
      epoch in the run. */
  lemma {:induction false} EntryWasStored<C(!new), K(!new), V(!new)>(
      g: Config<C, K, V>, s: State<C, K, V>, moves: seq<Move<C, V>>, last: State<C, K, V>,
      n: nat, t: nat, op: Stored<K, V>)
      returns (m: nat, store: nat)
    requires Runs(g, s, moves, last) && n <= |moves| && Untouched(s, op.epoch)
    requires var a := StateAt(g, s, moves, last, n); t < |a.threads| && op in a.threads[t].log
    ensures m < store < n && Reads(g, s, moves, last, m, t, op.epoch) && moves[store] == Move(t, Step<C, V>.Store)
    decreases n
  {
    hide Runs, Apply, Enabled, Pending;
    if n == 0 {
      StateAtStart(g, s, moves, last);
    } else {
      var a, move := StateAt(g, s, moves, last, n - 1), moves[n - 1];
      StateSteps(g, s, moves, last, n - 1);
      ThreadsStay(g, a, move.thread, move.step);
      StepOrigins(g, a, move.thread, move.step, t);
      if op in a.threads[t].log {
        m, store := EntryWasStored(g, s, moves, last, n - 1, t, op);
      } else {
        store := n - 1;
        m := PendingWasRead(g, s, moves, last, n - 1, t, |a.threads[t].stack| - 1, op.epoch);
      }
    }
  }

  /** A hit under an epoch begun by a bump, or a later one, was stored after the bump, by an evaluation of the
      same thread that had read the epoch after the bump. So inside a bracket nothing is served that was
      evaluated before it was opened. */
  lemma HitsComeFromInside<C(!new), K(!new), V(!new)>(
      g: Config<C, K, V>, s0: State<C, K, V>, before: seq<Move<C, V>>, s: State<C, K, V>, t: nat, step: Step<C, V>,
      after: seq<Move<C, V>>, last: State<C, K, V>, u: nat, k: K, e: nat)
      returns (read: nat, store: nat)
    requires Sound(g) && Initial(s0) && Runs(g, s0, before, s)
    requires t < |s.threads| && Enabled(g, s, t, step) && Bumps(step)
    requires Runs(g, Apply(g, s, t, step), after, last) && u < |last.threads|
    requires e >= Apply(g, s, t, step).epoch && g.lookup(last.threads[u].log, k, e).Some?
    ensures read < store < |after|
    ensures Reads(g, Apply(g, s, t, step), after, last, read, u, e) && after[store] == Move(u, Step<C, V>.Store)
  {
    hide Runs, Apply, Enabled, Bumps;
    var s' := Apply(g, s, t, step);
    BumpStartsAfresh(g, s0, before, s, t, step);
    StateAtEnd(g, s', after, last);
    assert Untouched(s', e);
    read, store := EntryWasStored(g, s', after, last, |after|, u,
                                  Stored(k, e, g.lookup(last.threads[u].log, k, e).value));
  }

  // ---- being in a tick -----------------------------------------------------------------------

  /** A tick bracket, from raising the counter to dropping it. */
  predicate InTick<C, V>(a: Activity<C, V>) {
    a.TickEntered? || a.Tick? || a.TickLeaving?
  }

  function OneIfTick<C, V>(): Activity<C, V> -> nat {
    (a: Activity<C, V>) => if InTick(a) then 1 else 0
  }

  function TicksOf<C, K, V>(): Thread<C, K, V> -> nat {
    (th: Thread<C, K, V>) => Sum(th.stack, OneIfTick())
  }

  /** The number of tick brackets open on all threads. */
  function OpenTicks<C, K, V>(s: State<C, K, V>): nat {
    Sum(s.threads, TicksOf())
  }

  lemma PushTick<C(!new), V(!new)>(stack: seq<Activity<C, V>>, a: Activity<C, V>)
    ensures Sum(Push(stack, a), OneIfTick()) == Sum(stack, OneIfTick()) + OneIfTick()(a)
  {
    assert Push(stack, a)[..|stack|] == stack;
  }

  lemma ReplaceTick<C(!new), V(!new)>(stack: seq<Activity<C, V>>)
    requires stack != []
    ensures Sum(Pop(stack), OneIfTick()) + OneIfTick()(Top(stack)) == Sum(stack, OneIfTick())
    ensures forall a :: Sum(Push(Pop(stack), a), OneIfTick()) == Sum(Pop(stack), OneIfTick()) + OneIfTick()(a)
  {
    forall a ensures Sum(Push(Pop(stack), a), OneIfTick()) == Sum(Pop(stack), OneIfTick()) + OneIfTick()(a) {
      PushTick(Pop(stack), a);
    }
  }

  lemma StepCountsTicks<C(!new), K(!new), V(!new)>(g: Config<C, K, V>, s: State<C, K, V>, t: nat, step: Step<C, V>)
    requires t < |s.threads| && Enabled(g, s, t, step) && s.inTick == OpenTicks(s)
    ensures var s' := Apply(g, s, t, step); s'.inTick == OpenTicks(s')
  {
    hide Quiet, Sum;
    var s', st := Apply(g, s, t, step), s.threads[t].stack;
    SumUpdate(s.threads, t, s'.threads[t], TicksOf());
    if s'.threads != s.threads { assert s'.threads == s.threads[t := s'.threads[t]]; }
    match step
    case EffectEnter => PushTick(st, Effect);
    case TickRaise => PushTick(st, TickEntered);
    case HandlerEnter(c) => PushTick(st, Handler(c, Gated));
    case FrameBump =>
    case Mutate(_) =>
    case _ => ReplaceTick(st);
  }

  lemma {:induction false} RunCountsTicks<C(!new), K(!new), V(!new)>(
      g: Config<C, K, V>, s: State<C, K, V>, moves: seq<Move<C, V>>, last: State<C, K, V>)
    requires Runs(g, s, moves, last) && s.inTick == OpenTicks(s)
    ensures last.inTick == OpenTicks(last)
    decreases |moves|
  {
    hide Enabled, Apply, OpenTicks;
    if moves != [] {
      StepCountsTicks(g, s, moves[0].thread, moves[0].step);
      RunCountsTicks(g, Apply(g, s, moves[0].thread, moves[0].step), moves[1..], last);
    }
  }

  /** In every run the in-tick counter is the number of ticks under way, from before their first bump until
      after their second. */
  lemma InTickIsExact<C(!new), K(!new), V(!new)>(g: Config<C, K, V>, s0: State<C, K, V>, moves: seq<Move<C, V>>,
                                                 s: State<C, K, V>)
    requires Initial(s0) && Runs(g, s0, moves, s)
    ensures s.inTick == OpenTicks(s)
  {
    SumZero(s0.threads, TicksOf());
    RunCountsTicks(g, s0, moves, s);
  }
}
