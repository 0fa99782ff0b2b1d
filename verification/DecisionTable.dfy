/** The shared table of verdicts on trigger classes, filled without locks: a thread claims a slot for a
    class by compare-and-swap and stores the verdict in a second step. Each atomic access is one step
    of the machine; steps of any number of threads interleave freely. */
module DecisionTable {
  import opened Wrappers
  import opened Probing

  const PROBES: nat := 64

  /** A slot: the class (0 = free) and the verdict (0 = none yet, 1 = cacheable, 2 = bypass). */
  datatype Slot = Slot(class_: nat, verdict: nat)

  /** whitelisted: the classes whose name is on the list; hash: the slot hash;
      afterVerdict: a class is marked impure only by a thread that was given verdict 1 for it, as the
      handler does (TickCache.PoisoningFollowsVerdict). */
  datatype Config = Config(whitelisted: nat -> bool, hash: nat -> nat, afterVerdict: bool)

  /** Where a thread stands. late records, for the statements, that the class had been poisoned when
      the call began. */
  datatype Thread =
    | Idle
    | Deciding(class_: nat, i: nat, p: nat, late: bool)     // about to load the class of slot i
    | Matched(class_: nat, i: nat, late: bool)              // about to load the verdict of slot i
    | Vacant(class_: nat, i: nat, p: nat, late: bool)       // saw slot i free, about to swap
    | Claimed(class_: nat, i: nat, late: bool)              // swapped, about to store the verdict
    | Beaten(class_: nat, i: nat, p: nat, late: bool)       // swap failed, about to load slot i again
    | Decided(class_: nat, result: nat, late: bool)         // returned; 1 lets the caller evaluate
    | Marking(class_: nat, i: nat, p: nat)                  // in mark_impure, about to load slot i
    | Exchanging(class_: nat, i: nat)                       // about to exchange the verdict for 2

  datatype State = State(slots: seq<Slot>, threads: seq<Thread>, poisoned: set<nat>)

  function ViewOf(s: seq<Slot>): (v: View<nat>)
    ensures |v| == |s|
    ensures forall j :: 0 <= j < |s| ==> v[j] == if s[j].class_ == 0 then None else Some(s[j].class_)
  {
    seq(|s|, j requires 0 <= j < |s| => if s[j].class_ == 0 then None else Some(s[j].class_))
  }

  function Verdict(g: Config, c: nat): nat {
    if g.whitelisted(c) then 1 else 2
  }

  // ---- steps ---------------------------------------------------------------------------------

  datatype Move = Call(class_: nat) | Mark(class_: nat) | Continue | Leave

  /** The slot a probing thread stands at is inside the table. */
  predicate InTable(s: State, th: Thread) {
    (th.Deciding? || th.Matched? || th.Vacant? || th.Claimed? || th.Beaten? || th.Marking? || th.Exchanging?) ==>
        th.i < |s.slots|
  }

  predicate Enabled(g: Config, s: State, t: nat, m: Move) {
    t < |s.threads| && |s.slots| > 0 && InTable(s, s.threads[t]) &&
    var th := s.threads[t];
    match m
    case Call(_) => th.Idle?
    case Mark(c) => c != 0 && if g.afterVerdict then th.Decided? && th.class_ == c && th.result == 1 else th.Idle?
    case Continue => !th.Idle? && !th.Decided?
    case Leave => th.Decided?
  }

  function Probe(g: Config, s: State, th: Thread): (Thread, seq<Slot>, set<nat>)
    requires |s.slots| > 0 && InTable(s, th) && !th.Idle? && !th.Decided?
  {
    var n := |s.slots|;
    match th
    case Deciding(c, i, p, late) =>
      if p >= PROBES then (Decided(c, 2, late), s.slots, s.poisoned)
      else if s.slots[i].class_ == c then (Matched(c, i, late), s.slots, s.poisoned)
      else if s.slots[i].class_ == 0 then (Vacant(c, i, p, late), s.slots, s.poisoned)
      else (Deciding(c, Next(i, n), p + 1, late), s.slots, s.poisoned)
    case Matched(c, i, late) => (Decided(c, s.slots[i].verdict, late), s.slots, s.poisoned)
    case Vacant(c, i, p, late) =>
      if s.slots[i].class_ == 0 then (Claimed(c, i, late), s.slots[i := s.slots[i].(class_ := c)], s.poisoned)
      else (Beaten(c, i, p, late), s.slots, s.poisoned)
    case Claimed(c, i, late) =>
      (Decided(c, Verdict(g, c), late), s.slots[i := s.slots[i].(verdict := Verdict(g, c))], s.poisoned)
    case Beaten(c, i, p, late) =>
      if s.slots[i].class_ == c then (Matched(c, i, late), s.slots, s.poisoned)
      else (Deciding(c, Next(i, n), p + 1, late), s.slots, s.poisoned)
    case Marking(c, i, p) =>
      if p >= PROBES then (Idle, s.slots, s.poisoned)
      else if s.slots[i].class_ == c then (Exchanging(c, i), s.slots, s.poisoned)
      else (Marking(c, Next(i, n), p + 1), s.slots, s.poisoned)
    case Exchanging(c, i) => (Idle, s.slots[i := s.slots[i].(verdict := 2)], s.poisoned + {c})
  }

  function Apply(g: Config, s: State, t: nat, m: Move): (s': State)
    requires Enabled(g, s, t, m)
  {
    var th := s.threads[t];
    match m
    case Call(c) =>
      // A null class is refused at once.
      s.(threads := s.threads[t := if c == 0 then Decided(0, 2, false)
                                   else Deciding(c, Home(g.hash(c), |s.slots|), 0, c in s.poisoned)])
    case Mark(c) => s.(threads := s.threads[t := Marking(c, Home(g.hash(c), |s.slots|), 0)])
    case Continue =>
      var (th', slots', poisoned') := Probe(g, s, th);
      State(slots', s.threads[t := th'], poisoned')
    case Leave => s.(threads := s.threads[t := Idle])
  }

  predicate Initial(s: State) {
    && |s.slots| > 0 && s.poisoned == {}
    && (forall i :: 0 <= i < |s.slots| ==> s.slots[i] == Slot(0, 0))
    && (forall t :: 0 <= t < |s.threads| ==> s.threads[t] == Idle)
  }

  // ---- the way a probe has come --------------------------------------------------------------

  /** From slot h, p probes lead to slot i, past slots that hold other classes. */
  ghost predicate Passed(v: View<nat>, c: nat, h: nat, i: nat, p: nat)
    requires h < |v|
    decreases p
  {
    if p == 0 then i == h
    else v[h].Some? && v[h] != Some(c) && Passed(v, c, Next(h, |v|), i, p - 1)
  }

  lemma {:induction false} PassedOn(v: View<nat>, c: nat, h: nat, i: nat, p: nat)
    requires h < |v| && i < |v| && Passed(v, c, h, i, p) && v[i].Some? && v[i] != Some(c)
    ensures Passed(v, c, h, Next(i, |v|), p + 1)
    decreases p
  {
    if p == 0 {
      assert Passed(v, c, Next(h, |v|), Next(i, |v|), 0);
    } else {
      PassedOn(v, c, Next(h, |v|), i, p - 1);
    }
  }

  /** Where the class belongs is decided from where the probe stands. */
  lemma {:induction false} PassedPlace(v: View<nat>, c: nat, h: nat, i: nat, p: nat, q: nat)
    requires h < |v| && i < |v| && Passed(v, c, h, i, p) && p <= q
    ensures PlaceFrom(v, c, h, q) == PlaceFrom(v, c, i, q - p)
    decreases p
  {
    if p != 0 { PassedPlace(v, c, Next(h, |v|), i, p - 1, q - 1); }
  }

  /** Filling a free slot does not change the way come. */
  lemma {:induction false} PassedStays(v: View<nat>, w: nat, x: nat, c: nat, h: nat, i: nat, p: nat)
    requires h < |v| && w < |v| && v[w].None? && Passed(v, c, h, i, p)
    ensures Passed(v[w := Some(x)], c, h, i, p)
    decreases p
  {
    if p != 0 { PassedStays(v, w, x, c, Next(h, |v|), i, p - 1); }
  }

  // ---- the invariant -------------------------------------------------------------------------

  ghost predicate SlotOk(g: Config, s: State, x: Slot) {
    && x.verdict <= 2
    && (x.class_ == 0 ==> x.verdict == 0)
    && (x.verdict == 1 ==> g.whitelisted(x.class_))
    && (x.class_ in s.poisoned ==> x.verdict == 2)
  }

  /** The class has a slot with its verdict stored. */
  ghost predicate Settled(s: State, c: nat) {
    exists j :: 0 <= j < |s.slots| && s.slots[j].class_ == c && s.slots[j].verdict != 0
  }

  ghost predicate ThreadOk(g: Config, s: State, th: Thread)
    requires |s.slots| > 0
  {
    var v := ViewOf(s.slots);
    InTable(s, th) &&
    match th
    case Idle => true
    case Deciding(c, i, p, late) =>
      c != 0 && p <= PROBES && Passed(v, c, Home(g.hash(c), |v|), i, p) && (late ==> c in s.poisoned)
    case Matched(c, i, late) => c != 0 && s.slots[i].class_ == c && (late ==> c in s.poisoned)
    case Vacant(c, i, p, late) =>
      c != 0 && p < PROBES && Passed(v, c, Home(g.hash(c), |v|), i, p) && (late ==> c in s.poisoned)
    case Claimed(c, i, late) => c != 0 && s.slots[i] == Slot(c, 0) && (late ==> c in s.poisoned)
    case Beaten(c, i, p, late) => c != 0 && p < PROBES && s.slots[i].class_ != 0
                                  && Passed(v, c, Home(g.hash(c), |v|), i, p) && (late ==> c in s.poisoned)
    case Decided(c, r, late) => (r == 1 ==> c != 0 && g.whitelisted(c) && Settled(s, c) && !late)
    case Marking(c, i, p) => c != 0 && p < PROBES && FindFrom(v, c, i, PROBES - p).Some? && Settled(s, c)
    case Exchanging(c, i) => c != 0 && s.slots[i].class_ == c && s.slots[i].verdict != 0
  }

  ghost predicate Inv(g: Config, s: State) {
    && |s.slots| > 0
    && Coherent(ViewOf(s.slots), g.hash, PROBES)
    && (forall i :: 0 <= i < |s.slots| ==> SlotOk(g, s, s.slots[i]))
    && (forall c :: c in s.poisoned ==> Settled(s, c))
    && (forall t :: 0 <= t < |s.threads| ==> ThreadOk(g, s, s.threads[t]))
    && (forall t, u :: 0 <= t < |s.threads| && 0 <= u < |s.threads| && t != u &&
                       s.threads[t].Claimed? && s.threads[u].Claimed?
          ==> s.threads[t].i != s.threads[u].i)
  }

  lemma OneSlotPerClass(g: Config, s: State, i: nat, j: nat)
    requires Inv(g, s) && i < |s.slots| && j < |s.slots|
    requires s.slots[i].class_ != 0 && s.slots[i].class_ == s.slots[j].class_
    ensures i == j
  {
    OneSlotPerKey(ViewOf(s.slots), g.hash, PROBES, i, j);
  }

  // ---- every step keeps it -------------------------------------------------------------------

  /** A step that writes no slot keeps the invariant when its thread stays in order. */
  lemma LoadKeepsInv(g: Config, s: State, t: nat, th': Thread)
    requires Inv(g, s) && t < |s.threads| && ThreadOk(g, s, th') && !th'.Claimed?
    ensures Inv(g, s.(threads := s.threads[t := th']))
  {
    var s' := s.(threads := s.threads[t := th']);
    assert forall c :: Settled(s', c) <==> Settled(s, c);
    forall u | 0 <= u < |s'.threads| ensures ThreadOk(g, s', s'.threads[u]) {
      assert u != t ==> ThreadOk(g, s, s.threads[u]);
    }
  }

  /** What a step that writes slot w must respect for the other threads to stay in order. */
  lemma OthersStayOk(g: Config, s: State, s': State, w: nat, th: Thread)
    requires |s.slots| == |s'.slots| && w < |s.slots| && ThreadOk(g, s, th)
    requires s'.slots == s.slots[w := s'.slots[w]] && s.poisoned <= s'.poisoned
    requires s.slots[w].class_ == 0 || s'.slots[w].class_ == s.slots[w].class_
    requires s.slots[w].verdict != 0 ==> s'.slots[w].verdict != 0
    requires th.Claimed? ==> th.i != w
    requires th.Marking? && s.slots[w].class_ == 0 ==> s'.slots[w].class_ != th.class_
    requires s.slots[w].class_ == 0 ==> s'.slots[w].class_ != 0
    ensures ThreadOk(g, s', th)
  {
    var v, v' := ViewOf(s.slots), ViewOf(s'.slots);
    forall c | Settled(s, c) && c != 0 ensures Settled(s', c) {
      var j :| 0 <= j < |s.slots| && s.slots[j].class_ == c && s.slots[j].verdict != 0;
      assert s'.slots[j].class_ == c && s'.slots[j].verdict != 0;
    }
    if s.slots[w].class_ == 0 {
      var x := s'.slots[w].class_;
      assert v' == v[w := Some(x)];
      if th.Deciding? || th.Vacant? || th.Beaten? {
        PassedStays(v, w, x, th.class_, Home(g.hash(th.class_), |v|), th.i, th.p);
      }
      if th.Marking? {
        OtherKeyStays(v, x, w, th.class_, th.i, PROBES - th.p);
      }
    } else {
      assert v' == v;
    }
  }

  /** The free slot a probe stands at is where the class belongs, and no other slot has it. */
  lemma VacantSlotIsRight(g: Config, s: State, c: nat, i: nat, p: nat)
    requires |s.slots| > 0 && i < |s.slots| && s.slots[i].class_ == 0 && c != 0 && p < PROBES
    requires Coherent(ViewOf(s.slots), g.hash, PROBES)
    requires Passed(ViewOf(s.slots), c, Home(g.hash(c), |s.slots|), i, p)
    ensures var v := ViewOf(s.slots);
            ViewOf(s.slots[i := s.slots[i].(class_ := c)]) == v[i := Some(c)] &&
            Coherent(v[i := Some(c)], g.hash, PROBES)
    ensures !Settled(s, c)
  {
    var v := ViewOf(s.slots);
    PassedPlace(v, c, Home(g.hash(c), |v|), i, p, PROBES);
    assert Place(v, c, g.hash, PROBES) == Some(i);
    AbsentKey(v, c, g.hash, PROBES);
    PlaceKeepsCoherent(v, c, g.hash, PROBES);
    assert Some(c) !in v;
    forall j | 0 <= j < |s.slots| ensures s.slots[j].class_ != c { assert v[j] in v; }
  }

  /** The swap. */
  lemma ClaimKeepsInv(g: Config, s: State, t: nat)
    requires Inv(g, s) && t < |s.threads| && s.threads[t].Vacant? && s.slots[s.threads[t].i].class_ == 0
    ensures var th := s.threads[t];
            Inv(g, State(s.slots[th.i := s.slots[th.i].(class_ := th.class_)],
                         s.threads[t := Claimed(th.class_, th.i, th.late)], s.poisoned))
  {
    hide Passed, Probing.Coherent, FindFrom, Home, Settled;
    var th := s.threads[t];
    var c, i := th.class_, th.i;
    assert ThreadOk(g, s, th) && SlotOk(g, s, s.slots[i]);
    VacantSlotIsRight(g, s, c, i, th.p);
    var s' := State(s.slots[i := s.slots[i].(class_ := c)], s.threads[t := Claimed(c, i, th.late)], s.poisoned);
    forall j | 0 <= j < |s'.slots| ensures SlotOk(g, s', s'.slots[j]) { assert SlotOk(g, s, s.slots[j]); }
    forall x | x in s'.poisoned ensures Settled(s', x) { SettledStays(s, s', i, x); }
    forall u | 0 <= u < |s'.threads| ensures ThreadOk(g, s', s'.threads[u]) {
      if u != t {
        assert ThreadOk(g, s, s.threads[u]);
        OthersStayOk(g, s, s', i, s.threads[u]);
      }
    }
  }

  lemma SettledStays(s: State, s': State, w: nat, c: nat)
    requires |s.slots| == |s'.slots| && w < |s.slots| && s'.slots == s.slots[w := s'.slots[w]]
    requires s.slots[w].verdict == 0 || (s'.slots[w].class_ == s.slots[w].class_ && s'.slots[w].verdict != 0)
    requires Settled(s, c)
    ensures Settled(s', c)
  {
    var j :| 0 <= j < |s.slots| && s.slots[j].class_ == c && s.slots[j].verdict != 0;
    assert s'.slots[j].class_ == c && s'.slots[j].verdict != 0;
  }

  /** Writing the verdict of a class's slot, from 0 or over an earlier one. */
  lemma VerdictKeepsInv(g: Config, s: State, t: nat, verdict: nat, th': Thread)
    requires Inv(g, s) && t < |s.threads| && !th'.Claimed?
    requires var th := s.threads[t];
             || (th.Claimed? && verdict == Verdict(g, th.class_) && th' == Decided(th.class_, verdict, th.late))
             || (th.Exchanging? && verdict == 2 && th' == Idle)
    ensures var th := s.threads[t];
            Inv(g, State(s.slots[th.i := s.slots[th.i].(verdict := verdict)], s.threads[t := th'],
                         if th.Exchanging? then s.poisoned + {th.class_} else s.poisoned))
  {
    hide Passed, Probing.Coherent, FindFrom, Home;
    var th := s.threads[t];
    var c, i := th.class_, th.i;
    assert ThreadOk(g, s, th) && SlotOk(g, s, s.slots[i]);
    var s' := State(s.slots[i := s.slots[i].(verdict := verdict)], s.threads[t := th'],
                    if th.Exchanging? then s.poisoned + {c} else s.poisoned);
    assert ViewOf(s'.slots) == ViewOf(s.slots);
    assert s'.slots[i].class_ == c && s'.slots[i].verdict == verdict != 0;
    forall j | 0 <= j < |s'.slots| ensures SlotOk(g, s', s'.slots[j]) {
      assert SlotOk(g, s, s.slots[j]);
      if s.slots[j].class_ == c { OneSlotPerClass(g, s, i, j); }
    }
    forall x | x in s'.poisoned ensures Settled(s', x) {
      if x != c || x in s.poisoned { SettledStays(s, s', i, x); }
    }
    forall u | 0 <= u < |s'.threads| ensures ThreadOk(g, s', s'.threads[u]) {
      if u != t {
        assert ThreadOk(g, s, s.threads[u]);
        OthersStayOk(g, s, s', i, s.threads[u]);
      }
    }
  }

  /** A probe that goes on has come past another class. */
  lemma ProbeOn(g: Config, s: State, c: nat, i: nat, p: nat)
    requires |s.slots| > 0 && i < |s.slots| && Passed(ViewOf(s.slots), c, Home(g.hash(c), |s.slots|), i, p)
    requires s.slots[i].class_ != 0 && s.slots[i].class_ != c
    ensures Passed(ViewOf(s.slots), c, Home(g.hash(c), |s.slots|), Next(i, |s.slots|), p + 1)
  {
    PassedOn(ViewOf(s.slots), c, Home(g.hash(c), |s.slots|), i, p);
  }

  lemma InvParts(g: Config, s: State, t: nat)
    requires Inv(g, s) && t < |s.threads|
    ensures |s.slots| > 0 && ThreadOk(g, s, s.threads[t])
  {
  }

  lemma MatchedVerdict(g: Config, s: State, c: nat, i: nat, late: bool)
    requires Inv(g, s) && i < |s.slots| && s.slots[i].class_ == c != 0 && (late ==> c in s.poisoned)
    ensures ThreadOk(g, s, Decided(c, s.slots[i].verdict, late))
  {
    assert SlotOk(g, s, s.slots[i]);
  }

  /** A thread that marks a class always comes to its slot. */
  lemma MarkingStep(g: Config, s: State, t: nat)
    requires Inv(g, s) && t < |s.threads| && s.threads[t].Marking?
    ensures var th := s.threads[t];
            th.i < |s.slots| && th.p < PROBES && ThreadOk(g, s, Probe(g, s, th).0)
  {
    var th := s.threads[t];
    assert ThreadOk(g, s, th);
    if s.slots[th.i].class_ == th.class_ {
      var j :| 0 <= j < |s.slots| && s.slots[j].class_ == th.class_ && s.slots[j].verdict != 0;
      OneSlotPerClass(g, s, th.i, j);
    }
  }

  lemma ContinueKeepsInv(g: Config, s: State, t: nat)
    requires Inv(g, s) && Enabled(g, s, t, Continue)
    ensures Inv(g, Apply(g, s, t, Continue))
  {
    hide Passed, Probing.Coherent, FindFrom, PlaceFrom, Home, SlotOk, Inv;
    InvParts(g, s, t);
    var th := s.threads[t];
    match th
    case Deciding(c, i, p, late) =>
      if p < PROBES && s.slots[i].class_ != c && s.slots[i].class_ != 0 { ProbeOn(g, s, c, i, p); }
      LoadKeepsInv(g, s, t, Probe(g, s, th).0);
    case Matched(c, i, late) =>
      MatchedVerdict(g, s, c, i, late);
      LoadKeepsInv(g, s, t, Probe(g, s, th).0);
    case Vacant(c, i, p, late) =>
      if s.slots[i].class_ == 0 { ClaimKeepsInv(g, s, t); } else { LoadKeepsInv(g, s, t, Probe(g, s, th).0); }
    case Claimed(c, i, late) =>
      VerdictKeepsInv(g, s, t, Verdict(g, c), Decided(c, Verdict(g, c), late));
    case Beaten(c, i, p, late) =>
      if s.slots[i].class_ != c { ProbeOn(g, s, c, i, p); }
      LoadKeepsInv(g, s, t, Probe(g, s, th).0);
    case Marking(c, i, p) =>
      MarkingStep(g, s, t);
      LoadKeepsInv(g, s, t, Probe(g, s, th).0);
    case Exchanging(c, i) =>
      VerdictKeepsInv(g, s, t, 2, Idle);
  }

  lemma StepKeepsInv(g: Config, s: State, t: nat, m: Move)
    requires g.afterVerdict && Inv(g, s) && Enabled(g, s, t, m)
    ensures Inv(g, Apply(g, s, t, m))
  {
    var th := s.threads[t];
    assert ThreadOk(g, s, th);
    match m
    case Call(c) =>
      LoadKeepsInv(g, s, t, if c == 0 then Decided(0, 2, false)
                            else Deciding(c, Home(g.hash(c), |s.slots|), 0, c in s.poisoned));
    case Mark(c) =>
      var v := ViewOf(s.slots);
      var j :| 0 <= j < |s.slots| && s.slots[j].class_ == c && s.slots[j].verdict != 0;
      assert v[j] == Some(c) && v[j] in v;
      AbsentKey(v, c, g.hash, PROBES);
      LoadKeepsInv(g, s, t, Marking(c, Home(g.hash(c), |s.slots|), 0));
    case Continue => ContinueKeepsInv(g, s, t);
    case Leave => LoadKeepsInv(g, s, t, Idle);
  }

  // ---- runs ----------------------------------------------------------------------------------

  datatype Turn = Turn(thread: nat, move: Move)

  /** The turns can be taken one after the other, and end in the state last. */
  ghost predicate Runs(g: Config, s: State, turns: seq<Turn>, last: State)
    decreases |turns|
  {
    if turns == [] then s == last
    else Enabled(g, s, turns[0].thread, turns[0].move) &&
         Runs(g, Apply(g, s, turns[0].thread, turns[0].move), turns[1..], last)
  }

  ghost predicate Reachable(g: Config, last: State) {
    exists s, turns :: Initial(s) && Runs(g, s, turns, last)
  }

  lemma InitialInv(g: Config, s: State)
    requires Initial(s)
    ensures Inv(g, s)
  {
    forall t | 0 <= t < |s.threads| ensures ThreadOk(g, s, s.threads[t]) {
      assert s.threads[t] == Idle;
    }
  }

  lemma {:induction false} RunKeepsInv(g: Config, s: State, turns: seq<Turn>, last: State)
    requires g.afterVerdict && Inv(g, s) && Runs(g, s, turns, last)
    ensures Inv(g, last)
    decreases |turns|
  {
    hide Inv;
    if turns != [] {
      StepKeepsInv(g, s, turns[0].thread, turns[0].move);
      RunKeepsInv(g, Apply(g, s, turns[0].thread, turns[0].move), turns[1..], last);
    }
  }

  lemma ReachableInv(g: Config, s: State)
    requires g.afterVerdict && Reachable(g, s)
    ensures Inv(g, s)
  {
    var start, turns :| Initial(start) && Runs(g, start, turns, s);
    InitialInv(g, start);
    RunKeepsInv(g, start, turns, s);
  }

  /** Each class claims at most one slot, however many threads race for it. */
  lemma OneClaimPerClass(g: Config, s: State, i: nat, j: nat)
    requires g.afterVerdict && Reachable(g, s) && i < |s.slots| && j < |s.slots|
    requires s.slots[i].class_ != 0 && s.slots[i].class_ == s.slots[j].class_
    ensures i == j
  {
    ReachableInv(g, s);
    OneSlotPerClass(g, s, i, j);
  }

  /** A slot keeps its class, and its verdict moves from 0 to 1 or 2 and from 1 to 2 only. */
  lemma VerdictsOnlyAdvance(g: Config, s: State, t: nat, m: Move, i: nat)
    requires g.afterVerdict && Reachable(g, s) && Enabled(g, s, t, m) && i < |s.slots|
    ensures var x, x' := s.slots[i], Apply(g, s, t, m).slots[i];
            && |Apply(g, s, t, m).slots| == |s.slots|
            && (x.class_ != 0 ==> x'.class_ == x.class_)
            && x.verdict <= x'.verdict <= 2
  {
    hide Passed, FindFrom, Probing.Coherent, Home, Reachable, Settled;
    ReachableInv(g, s);
    assert ThreadOk(g, s, s.threads[t]) && SlotOk(g, s, s.slots[i]);
    if m.Continue? { assert Apply(g, s, t, m).slots == Probe(g, s, s.threads[t]).1; }
  }

  /** Verdict 1 is given for whitelisted classes only, and never to a call that began after the class
      was poisoned. A poisoned class keeps verdict 2. */
  lemma PoisonIsFinal(g: Config, s: State)
    requires g.afterVerdict && Reachable(g, s)
    ensures forall t :: 0 <= t < |s.threads| && s.threads[t].Decided? && s.threads[t].result == 1 ==>
              g.whitelisted(s.threads[t].class_) && !s.threads[t].late
    ensures forall c :: c in s.poisoned ==>
              exists j :: 0 <= j < |s.slots| && s.slots[j] == Slot(c, 2)
  {
    ReachableInv(g, s);
    forall t | 0 <= t < |s.threads| && s.threads[t].Decided? && s.threads[t].result == 1
      ensures g.whitelisted(s.threads[t].class_) && !s.threads[t].late
    {
      assert ThreadOk(g, s, s.threads[t]);
    }
    forall c | c in s.poisoned ensures exists j :: 0 <= j < |s.slots| && s.slots[j] == Slot(c, 2) {
      var j :| 0 <= j < |s.slots| && s.slots[j].class_ == c && s.slots[j].verdict != 0;
      assert SlotOk(g, s, s.slots[j]);
      assert s.slots[j] == Slot(c, 2);
    }
  }

  lemma DecidedClass(g: Config, s: State, t: nat)
    requires g.afterVerdict && Reachable(g, s) && t < |s.threads| && s.threads[t].Decided? && s.threads[t].result == 1
    ensures s.threads[t].class_ != 0 && |s.slots| > 0
  {
    ReachableInv(g, s);
    assert ThreadOk(g, s, s.threads[t]);
  }

  /** Marking a class never runs out of probes, so it always reaches the exchange. */
  lemma MarkingIsNeverLost(g: Config, s: State, t: nat)
    requires g.afterVerdict && Reachable(g, s) && t < |s.threads| && s.threads[t].Marking?
    ensures Enabled(g, s, t, Continue) && !Apply(g, s, t, Continue).threads[t].Idle?
  {
    hide Inv, Passed, FindFrom, Home, Reachable;
    ReachableInv(g, s);
    MarkingStep(g, s, t);
  }

  // ---- why marking must follow a verdict -----------------------------------------------------

  lemma RunsFrom(g: Config, s: State, t: nat, m: Move, rest: seq<Turn>, last: State)
    requires Enabled(g, s, t, m) && Runs(g, Apply(g, s, t, m), rest, last)
    ensures Runs(g, s, [Turn(t, m)] + rest, last)
  {
    var turns := [Turn(t, m)] + rest;
    assert turns[0] == Turn(t, m) && turns[1..] == rest;
  }

  /** If a class may be marked by a thread that was not given verdict 1, the mark can fall between
      another thread's claim and its store of the verdict, and be overwritten: the class is poisoned,
      and yet its slot ends with verdict 1. */
  lemma UnguardedMarkIsLost(g: Config, c: nat) returns (s: State, turns: seq<Turn>, last: State)
    requires !g.afterVerdict && c != 0 && g.whitelisted(c)
    ensures Initial(s) && Runs(g, s, turns, last)
    ensures c in last.poisoned && last.slots == [Slot(c, 1)]
    ensures last.threads == [Decided(c, 1, false), Idle]
  {
    hide Runs, Apply, Enabled;
    s := OneSlot(Slot(0, 0), Idle, Idle, {});
    last := OneSlot(Slot(c, 1), Decided(c, 1, false), Idle, {c});
    var claimed := Claimed(c, 0, false);
    Claims(g, c);
    Marks(g, c);
    Settles(g, c);
    RunsNone(g, last);
    RunsFrom(g, OneSlot(Slot(c, 2), claimed, Idle, {c}), 0, Continue, [], last);
    turns := [Turn(0, Continue)] + [];
    RunsFrom(g, OneSlot(Slot(c, 0), claimed, Exchanging(c, 0), {}), 1, Continue, turns, last);
    turns := [Turn(1, Continue)] + turns;
    RunsFrom(g, OneSlot(Slot(c, 0), claimed, Marking(c, 0, 0), {}), 1, Continue, turns, last);
    turns := [Turn(1, Continue)] + turns;
    RunsFrom(g, OneSlot(Slot(c, 0), claimed, Idle, {}), 1, Mark(c), turns, last);
    turns := [Turn(1, Mark(c))] + turns;
    RunsFrom(g, OneSlot(Slot(0, 0), Vacant(c, 0, 0, false), Idle, {}), 0, Continue, turns, last);
    turns := [Turn(0, Continue)] + turns;
    RunsFrom(g, OneSlot(Slot(0, 0), Deciding(c, 0, 0, false), Idle, {}), 0, Continue, turns, last);
    turns := [Turn(0, Continue)] + turns;
    RunsFrom(g, s, 0, Call(c), turns, last);
    turns := [Turn(0, Call(c))] + turns;
  }

  lemma RunsNone(g: Config, s: State)
    ensures Runs(g, s, [], s)
  {
  }

  /** A table of one slot and two threads. */
  function OneSlot(x: Slot, a: Thread, b: Thread, poisoned: set<nat>): State {
    State([x], [a, b], poisoned)
  }

  ghost predicate Takes(g: Config, s: State, t: nat, m: Move, s': State) {
    Enabled(g, s, t, m) && Apply(g, s, t, m) == s'
  }

  /** The first thread claims the slot. */
  lemma Claims(g: Config, c: nat)
    requires c != 0
    ensures var s, claimed := OneSlot(Slot(0, 0), Idle, Idle, {}), OneSlot(Slot(c, 0), Claimed(c, 0, false), Idle, {});
            && Takes(g, s, 0, Call(c), OneSlot(Slot(0, 0), Deciding(c, 0, 0, false), Idle, {}))
            && Takes(g, OneSlot(Slot(0, 0), Deciding(c, 0, 0, false), Idle, {}), 0, Continue,
                     OneSlot(Slot(0, 0), Vacant(c, 0, 0, false), Idle, {}))
            && Takes(g, OneSlot(Slot(0, 0), Vacant(c, 0, 0, false), Idle, {}), 0, Continue, claimed)
  {
    assert Home(g.hash(c), 1) == 0;
  }

  /** The second marks the class before the verdict is stored. */
  lemma Marks(g: Config, c: nat)
    requires c != 0 && !g.afterVerdict
    ensures var a := Claimed(c, 0, false);
            && Takes(g, OneSlot(Slot(c, 0), a, Idle, {}), 1, Mark(c), OneSlot(Slot(c, 0), a, Marking(c, 0, 0), {}))
            && Takes(g, OneSlot(Slot(c, 0), a, Marking(c, 0, 0), {}), 1, Continue,
                     OneSlot(Slot(c, 0), a, Exchanging(c, 0), {}))
            && Takes(g, OneSlot(Slot(c, 0), a, Exchanging(c, 0), {}), 1, Continue, OneSlot(Slot(c, 2), a, Idle, {c}))
  {
    assert Home(g.hash(c), 1) == 0;
  }

  /** The first stores its verdict over the mark. */
  lemma Settles(g: Config, c: nat)
    requires g.whitelisted(c)
    ensures Takes(g, OneSlot(Slot(c, 2), Claimed(c, 0, false), Idle, {c}), 0, Continue,
                  OneSlot(Slot(c, 1), Decided(c, 1, false), Idle, {c}))
  {
  }
}
