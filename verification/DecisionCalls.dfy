/** What a call of the decision table returns: exactly, when it runs alone, and why not 1, when others run. */
module DecisionCalls {
  import opened Wrappers
  import opened Probing
  import opened DecisionTable

  // ---- one call, alone -----------------------------------------------------------------------

  /** The state after thread t has decided class c, where w is the slot c belongs to. */
  function Concluded(g: Config, s: State, t: nat, c: nat, w: Option<nat>, late: bool): State
    requires t < |s.threads| && (w.Some? ==> w.value < |s.slots|)
  {
    match w
    case None => s.(threads := s.threads[t := Decided(c, 2, late)])
    case Some(j) =>
      if s.slots[j].class_ == c then s.(threads := s.threads[t := Decided(c, s.slots[j].verdict, late)])
      else
        var v := if g.whitelisted(c) then 1 else 2;
        State(s.slots[j := Slot(c, v)], s.threads[t := Decided(c, v, late)], s.poisoned)
  }

  lemma RunsOn(g: Config, s: State, t: nat, m: Move, rest: seq<Turn>, last: State)
    requires Enabled(g, s, t, m) && Runs(g, Apply(g, s, t, m), rest, last)
    ensures Runs(g, s, [Turn(t, m)] + rest, last)
  {
    RunsFrom(g, s, t, m, rest, last);
  }

  /** The steps in the slot c belongs to. */
  lemma EndsHere(g: Config, s: State, t: nat, c: nat, i: nat, p: nat, late: bool) returns (turns: seq<Turn>)
    requires t < |s.threads| && s.threads[t] == Deciding(c, i, p, late) && i < |s.slots| && p < PROBES
    requires s.slots[i].class_ == c || s.slots[i].class_ == 0
    ensures Runs(g, s, turns, Concluded(g, s, t, c, Some(i), late))
    ensures forall n :: 0 <= n < |turns| ==> turns[n].thread == t
  {
    hide Runs;
    var last := Concluded(g, s, t, c, Some(i), late);
    RunsNone(g, last);
    var s1 := Apply(g, s, t, Continue);
    var s2 := Apply(g, s1, t, Continue);
    if s.slots[i].class_ == c {
      assert s2 == last;
      turns := [];
    } else {
      var s3 := Apply(g, s2, t, Continue);
      assert s3.slots == last.slots && s3 == last;
      RunsOn(g, s2, t, Continue, [], last);
      turns := [Turn(t, Continue)];
      assert [Turn(t, Continue)] + [] == turns;
    }
    RunsOn(g, s1, t, Continue, turns, last);
    turns := [Turn(t, Continue)] + turns;
    RunsOn(g, s, t, Continue, turns, last);
    turns := [Turn(t, Continue)] + turns;
  }

  lemma {:induction false} DecidesAlone(g: Config, s: State, t: nat, c: nat, i: nat, p: nat, late: bool)
      returns (turns: seq<Turn>)
    requires t < |s.threads| && s.threads[t] == Deciding(c, i, p, late) && c != 0 && i < |s.slots| && p <= PROBES
    ensures Runs(g, s, turns, Concluded(g, s, t, c, PlaceFrom(ViewOf(s.slots), c, i, PROBES - p), late))
    ensures forall n :: 0 <= n < |turns| ==> turns[n].thread == t
    decreases PROBES - p
  {
    hide Runs, Concluded;
    var last := Concluded(g, s, t, c, PlaceFrom(ViewOf(s.slots), c, i, PROBES - p), late);
    if p < PROBES && (s.slots[i].class_ == c || s.slots[i].class_ == 0) {
      turns := EndsHere(g, s, t, c, i, p, late);
    } else {
      var s1 := Apply(g, s, t, Continue);
      if p < PROBES {
        turns := DecidesAlone(g, s1, t, c, Next(i, |s.slots|), p + 1, late);
        SameConclusion(g, s, s1, t, c, PlaceFrom(ViewOf(s.slots), c, i, PROBES - p), late);
      } else {
        RunsNone(g, last);
        FullConclusion(g, s, t, c, late);
        turns := [];
      }
      RunsOn(g, s, t, Continue, turns, last);
      turns := [Turn(t, Continue)] + turns;
    }
  }

  lemma SameConclusion(g: Config, s: State, s': State, t: nat, c: nat, w: Option<nat>, late: bool)
    requires t < |s.threads| && (w.Some? ==> w.value < |s.slots|)
    requires s' == s.(threads := s'.threads) && |s'.threads| == |s.threads|
    requires s'.threads == s.threads[t := s'.threads[t]]
    ensures Concluded(g, s', t, c, w, late) == Concluded(g, s, t, c, w, late)
  {
    var th := Concluded(g, s, t, c, w, late).threads[t];
    assert s'.threads[t := th] == s.threads[t := th];
  }

  lemma FullConclusion(g: Config, s: State, t: nat, c: nat, late: bool)
    requires t < |s.threads|
    ensures Concluded(g, s, t, c, None, late) == s.(threads := s.threads[t := Decided(c, 2, late)])
  {
  }

  /** An uninterrupted call of class c: it returns the verdict stored in the slot c holds; or it takes the first
      free slot and records and returns 1 for a whitelisted class and 2 otherwise; or, when its probes find
      neither, it returns 2. Nothing else changes. */
  lemma CallAlone(g: Config, s: State, t: nat, c: nat) returns (turns: seq<Turn>, last: State)
    requires t < |s.threads| && |s.slots| > 0 && s.threads[t].Idle? && c != 0
    ensures Runs(g, s, turns, last) && turns != [] && turns[0] == Turn(t, Call(c))
    ensures forall n :: 0 <= n < |turns| ==> turns[n].thread == t
    ensures last == Concluded(g, s, t, c, Place(ViewOf(s.slots), c, g.hash, PROBES), c in s.poisoned)
  {
    hide Runs, Concluded;
    var s1, i := Apply(g, s, t, Call(c)), Home(g.hash(c), |s.slots|);
    turns := DecidesAlone(g, s1, t, c, i, 0, c in s.poisoned);
    SameConclusion(g, s, s1, t, c, Place(ViewOf(s.slots), c, g.hash, PROBES), c in s.poisoned);
    last := Concluded(g, s, t, c, Place(ViewOf(s.slots), c, g.hash, PROBES), c in s.poisoned);
    RunsOn(g, s, t, Call(c), turns, last);
    turns := [Turn(t, Call(c))] + turns;
  }

  // ---- why a call returns 2 ------------------------------------------------------------------

  /** No slot for c is within reach, and none ever will be. */
  ghost predicate NoRoom(g: Config, s: State, c: nat) {
    |s.slots| > 0 && Place(ViewOf(s.slots), c, g.hash, PROBES).None?
  }

  /** A whitelisted class has verdict 2 only because it was poisoned, and is refused only because of that or
      because the table has no room for it. */
  ghost predicate Causes(g: Config, s: State) {
    && (forall j :: 0 <= j < |s.slots| && g.whitelisted(s.slots[j].class_) && s.slots[j].verdict == 2 ==>
          s.slots[j].class_ in s.poisoned)
    && (forall t :: 0 <= t < |s.threads| && s.threads[t].Decided? ==> Caused(g, s, s.threads[t]))
  }

  ghost predicate Caused(g: Config, s: State, th: Thread)
    requires th.Decided?
  {
    && th.result <= 2
    && (th.class_ != 0 && g.whitelisted(th.class_) && th.result == 2 ==>
        th.class_ in s.poisoned || NoRoom(g, s, th.class_))
    && (th.result == 0 ==> th.class_ != 0 && exists j :: 0 <= j < |s.slots| && s.slots[j].class_ == th.class_)
  }

  lemma RoomStaysGone(g: Config, s: State, s': State, w: nat, c: nat)
    requires |s.slots| == |s'.slots| && w < |s.slots| && NoRoom(g, s, c)
    requires forall j :: 0 <= j < |s.slots| && j != w ==> s'.slots[j].class_ == s.slots[j].class_
    requires s'.slots[w].class_ == s.slots[w].class_ || (s.slots[w].class_ == 0 && s'.slots[w].class_ != c)
    ensures NoRoom(g, s', c)
  {
    var v, v' := ViewOf(s.slots), ViewOf(s'.slots);
    if s'.slots[w].class_ == s.slots[w].class_ {
      assert v' == v;
    } else {
      assert v' == v[w := Some(s'.slots[w].class_)];
      StillNoPlace(v, s'.slots[w].class_, w, c, Home(g.hash(c), |v|), PROBES);
    }
  }

  /** What a step changes: one slot at most, and poison is only added. */
  lemma StepChanges(g: Config, s: State, t: nat, m: Move) returns (w: nat)
    requires Inv(g, s) && Enabled(g, s, t, m)
    ensures var s' := Apply(g, s, t, m);
            && |s'.slots| == |s.slots| && w < |s.slots| && s.poisoned <= s'.poisoned
            && (forall j :: 0 <= j < |s.slots| && j != w ==> s'.slots[j] == s.slots[j])
            && (s'.slots[w].class_ == s.slots[w].class_ || s.slots[w].class_ == 0)
            && (forall u :: 0 <= u < |s.threads| && u != t ==> s'.threads[u] == s.threads[u])
            && (s'.slots[w].verdict == 2 && g.whitelisted(s'.slots[w].class_) ==>
                  s'.slots[w].class_ in s'.poisoned || s'.slots[w] == s.slots[w])
  {
    hide Passed, Probing.Coherent, FindFrom, Home, Settled;
    var th := s.threads[t];
    w := if InTable(s, th) && (th.Vacant? || th.Claimed? || th.Exchanging?) then th.i else 0;
    assert ThreadOk(g, s, th) && SlotOk(g, s, s.slots[w]);
  }

  /** A class without room claims no slot. */
  lemma NotClaimed(g: Config, s: State, t: nat, m: Move, w: nat, c: nat)
    requires Inv(g, s) && Enabled(g, s, t, m) && w < |s.slots| && NoRoom(g, s, c) && c != 0
    requires s.slots[w].class_ == 0 && |Apply(g, s, t, m).slots| == |s.slots|
    ensures Apply(g, s, t, m).slots[w].class_ != c
  {
    hide Probing.Coherent, FindFrom, SlotOk;
    var th := s.threads[t];
    assert ThreadOk(g, s, th);
    if th.Vacant? { PassedPlace(ViewOf(s.slots), th.class_, Home(g.hash(th.class_), |s.slots|), th.i, th.p, PROBES); }
  }

  lemma StepKeepsCauses(g: Config, s: State, t: nat, m: Move)
    requires Inv(g, s) && Causes(g, s) && Enabled(g, s, t, m)
    ensures Causes(g, Apply(g, s, t, m))
  {
    hide Inv, Apply, NoRoom, Enabled;
    var s' := Apply(g, s, t, m);
    var w := StepChanges(g, s, t, m);
    forall j | 0 <= j < |s'.slots| && g.whitelisted(s'.slots[j].class_) && s'.slots[j].verdict == 2
      ensures s'.slots[j].class_ in s'.poisoned
    {
      if j != w { assert s'.slots[j] == s.slots[j]; }
    }
    SameThreads(g, s, t, m);
    forall u | 0 <= u < |s'.threads| && s'.threads[u].Decided? ensures Caused(g, s', s'.threads[u]) {
      if u != t { CausedStays(g, s, t, m, w, s.threads[u]); } else { NewlyDecided(g, s, t, m); }
    }
  }

  lemma SameThreads(g: Config, s: State, t: nat, m: Move)
    requires Enabled(g, s, t, m)
    ensures t < |s.threads| && |Apply(g, s, t, m).threads| == |s.threads|
  {
  }

  lemma CausedStays(g: Config, s: State, t: nat, m: Move, w: nat, th: Thread)
    requires Inv(g, s) && Enabled(g, s, t, m) && th.Decided? && Caused(g, s, th)
    requires var s' := Apply(g, s, t, m);
             && |s'.slots| == |s.slots| && w < |s.slots| && s.poisoned <= s'.poisoned
             && (forall j :: 0 <= j < |s.slots| && j != w ==> s'.slots[j] == s.slots[j])
             && (s'.slots[w].class_ == s.slots[w].class_ || s.slots[w].class_ == 0)
    ensures Caused(g, Apply(g, s, t, m), th)
  {
    hide Inv, Apply, NoRoom, Enabled;
    var s', c := Apply(g, s, t, m), th.class_;
    if c != 0 && NoRoom(g, s, c) {
      if s.slots[w].class_ == 0 { NotClaimed(g, s, t, m, w, c); }
      RoomStaysGone(g, s, s', w, c);
    }
    if th.result == 0 {
      var j :| 0 <= j < |s.slots| && s.slots[j].class_ == c;
      assert s'.slots[j].class_ == c;
    }
  }

  lemma NewlyDecided(g: Config, s: State, t: nat, m: Move)
    requires Inv(g, s) && Causes(g, s) && Enabled(g, s, t, m)
    ensures var s' := Apply(g, s, t, m);
            t < |s'.threads| && (s'.threads[t].Decided? ==> Caused(g, s', s'.threads[t]))
  {
    hide Probing.Coherent, FindFrom, Settled;
    var th, s' := s.threads[t], Apply(g, s, t, m);
    assert ThreadOk(g, s, th);
    if m.Continue? {
      if th.Deciding? {
        PassedPlace(ViewOf(s.slots), th.class_, Home(g.hash(th.class_), |s.slots|), th.i, th.p, PROBES);
      } else if th.Matched? {
        assert SlotOk(g, s, s.slots[th.i]);
      }
    }
  }

  lemma {:induction false} RunKeepsCauses(g: Config, s: State, turns: seq<Turn>, last: State)
    requires g.afterVerdict && Inv(g, s) && Causes(g, s) && Runs(g, s, turns, last)
    ensures Causes(g, last)
    decreases |turns|
  {
    hide Inv, Causes;
    if turns != [] {
      StepKeepsInv(g, s, turns[0].thread, turns[0].move);
      StepKeepsCauses(g, s, turns[0].thread, turns[0].move);
      RunKeepsCauses(g, Apply(g, s, turns[0].thread, turns[0].move), turns[1..], last);
    }
  }

  lemma ReachableCauses(g: Config, s: State)
    requires g.afterVerdict && Reachable(g, s)
    ensures Causes(g, s)
  {
    hide Runs, Inv;
    var start, turns :| Initial(start) && Runs(g, start, turns, s);
    InitialInv(g, start);
    RunKeepsCauses(g, start, turns, s);
  }

  /** However calls interleave, a whitelisted class is refused for cause only: a call of it returns 1, unless
      the class was poisoned, the table has no slot within its reach, or another call holds the slot and has
      not stored its verdict yet. */
  lemma RefusedForCause(g: Config, s: State, t: nat)
    requires g.afterVerdict && Reachable(g, s) && t < |s.threads| && s.threads[t].Decided?
    requires var c := s.threads[t].class_; c != 0 && g.whitelisted(c) && c !in s.poisoned && !NoRoom(g, s, c)
    ensures s.threads[t].result in {0, 1}
    ensures s.threads[t].result == 0 ==> exists j :: 0 <= j < |s.slots| && s.slots[j].class_ == s.threads[t].class_
  {
    hide Reachable, NoRoom;
    ReachableCauses(g, s);
    assert Caused(g, s, s.threads[t]);
  }

  /** A class that holds a slot is given the verdict stored there; a whitelisted class that was not poisoned
      is given 1 once its verdict is stored. */
  lemma StoredVerdictIsReturned(g: Config, s: State, t: nat, c: nat, j: nat) returns (turns: seq<Turn>, last: State)
    requires g.afterVerdict && Reachable(g, s) && t < |s.threads| && s.threads[t].Idle?
    requires c != 0 && j < |s.slots| && s.slots[j].class_ == c
    ensures Runs(g, s, turns, last)
    ensures last == s.(threads := s.threads[t := Decided(c, s.slots[j].verdict, c in s.poisoned)])
    ensures s.slots[j].verdict != 0 && g.whitelisted(c) && c !in s.poisoned ==> s.slots[j].verdict == 1
  {
    hide Runs, Place, Find, Probing.Coherent, Reachable;
    ReachableInv(g, s);
    ReachableCauses(g, s);
    var v := ViewOf(s.slots);
    assert v[j] == Some(c) && v[j] in v;
    AbsentKey(v, c, g.hash, PROBES);
    assert Find(v, v[j].value, g.hash, PROBES) == Some(j) by { CoherentFinds(v, g.hash, j); }
    turns, last := CallAlone(g, s, t, c);
  }

  lemma CoherentFinds(v: View<nat>, hash: nat -> nat, j: nat)
    requires |v| > 0 && Probing.Coherent(v, hash, PROBES) && j < |v| && v[j].Some?
    ensures Find(v, v[j].value, hash, PROBES) == Some(j)
  {
  }


  // ---- marking, and calls after it -----------------------------------------------------------

  lemma {:induction false} MarksAlone(g: Config, s: State, t: nat, c: nat, i: nat, p: nat)
      returns (turns: seq<Turn>, last: State)
    requires t < |s.threads| && s.threads[t] == Marking(c, i, p) && i < |s.slots| && p < PROBES
    requires FindFrom(ViewOf(s.slots), c, i, PROBES - p).Some?
    ensures Runs(g, s, turns, last) && last.poisoned == s.poisoned + {c} && |last.threads| == |s.threads|
    ensures last.threads == s.threads[t := Idle]
    decreases PROBES - p
  {
    hide Runs;
    var s1 := Apply(g, s, t, Continue);
    if s.slots[i].class_ == c {
      last := Apply(g, s1, t, Continue);
      RunsNone(g, last);
      RunsOn(g, s1, t, Continue, [], last);
      turns := [Turn(t, Continue)] + [];
    } else {
      turns, last := MarksAlone(g, s1, t, c, Next(i, |s.slots|), p + 1);
      assert s1.threads[t := Idle] == s.threads[t := Idle];
    }
    RunsOn(g, s, t, Continue, turns, last);
    turns := [Turn(t, Continue)] + turns;
  }

  /** A thread given verdict 1 that marks its class, alone, poisons it. */
  lemma MarkAlone(g: Config, s: State, t: nat) returns (turns: seq<Turn>, last: State)
    requires g.afterVerdict && Reachable(g, s) && t < |s.threads|
    requires s.threads[t].Decided? && s.threads[t].result == 1
    ensures Runs(g, s, turns, last) && turns != [] && turns[0] == Turn(t, Mark(s.threads[t].class_))
    ensures last.poisoned == s.poisoned + {s.threads[t].class_} && last.threads == s.threads[t := Idle]
  {
    hide Runs, Reachable, Home, FindFrom;
    var c := s.threads[t].class_;
    ReachableInv(g, s);
    DecidedClass(g, s, t);
    var s1 := Apply(g, s, t, Mark(c));
    MarkFinds(g, s, t);
    turns, last := MarksAlone(g, s1, t, c, Home(g.hash(c), |s.slots|), 0);
    assert s1.threads[t := Idle] == s.threads[t := Idle];
    RunsOn(g, s, t, Mark(c), turns, last);
    turns := [Turn(t, Mark(c))] + turns;
  }

  lemma MarkFinds(g: Config, s: State, t: nat)
    requires Inv(g, s) && t < |s.threads| && s.threads[t].Decided? && s.threads[t].result == 1
    ensures var c := s.threads[t].class_;
            FindFrom(ViewOf(s.slots), c, Home(g.hash(c), |s.slots|), PROBES).Some?
  {
    hide Probing.Coherent;
    var v, c := ViewOf(s.slots), s.threads[t].class_;
    assert ThreadOk(g, s, s.threads[t]);
    var j :| 0 <= j < |s.slots| && s.slots[j].class_ == c && s.slots[j].verdict != 0;
    assert v[j] == Some(c) && v[j] in v;
    AbsentKey(v, c, g.hash, PROBES);
  }

  /** Thread th is in a call of c that began after c was poisoned. */
  predicate LateCall(th: Thread, c: nat) {
    match th
    case Deciding(k, _, _, late) => k == c && late
    case Matched(k, _, late) => k == c && late
    case Vacant(k, _, _, late) => k == c && late
    case Claimed(k, _, late) => k == c && late
    case Beaten(k, _, _, late) => k == c && late
    case Decided(k, _, late) => k == c && late
    case _ => false
  }

  lemma {:induction false} StaysLate(g: Config, s: State, turns: seq<Turn>, last: State, u: nat, c: nat)
    requires Runs(g, s, turns, last) && u < |s.threads| && LateCall(s.threads[u], c)
    requires forall n :: 0 <= n < |turns| && turns[n].thread == u ==> turns[n].move == Continue
    ensures u < |last.threads| && LateCall(last.threads[u], c)
    decreases |turns|
  {
    if turns != [] { StaysLate(g, Apply(g, s, turns[0].thread, turns[0].move), turns[1..], last, u, c); }
  }

  /** A call that begins when its class is poisoned is never given verdict 1, whatever runs beside it. */
  lemma CallAfterPoison(g: Config, s: State, u: nat, c: nat, turns: seq<Turn>, last: State)
    requires g.afterVerdict && Reachable(g, s) && u < |s.threads| && s.threads[u].Idle? && |s.slots| > 0
    requires c != 0 && c in s.poisoned && Runs(g, Apply(g, s, u, Call(c)), turns, last)
    requires forall n :: 0 <= n < |turns| && turns[n].thread == u ==> turns[n].move == Continue
    ensures u < |last.threads| && LateCall(last.threads[u], c)
    ensures last.threads[u].Decided? ==> last.threads[u].result != 1
  {
    hide Reachable;
    StaysLate(g, Apply(g, s, u, Call(c)), turns, last, u, c);
    RunsOn(g, s, u, Call(c), turns, last);
    RunStaysReachable(g, s, [Turn(u, Call(c))] + turns, last);
    PoisonIsFinal(g, last);
  }

  lemma RunStaysReachable(g: Config, s: State, turns: seq<Turn>, last: State)
    requires Reachable(g, s) && Runs(g, s, turns, last)
    ensures Reachable(g, last)
  {
    var start, before :| Initial(start) && Runs(g, start, before, s);
    RunsAppend(g, start, before, s, turns, last);
  }

  lemma {:induction false} RunsAppend(g: Config, s: State, a: seq<Turn>, mid: State, b: seq<Turn>, last: State)
    requires Runs(g, s, a, mid) && Runs(g, mid, b, last)
    ensures Runs(g, s, a + b, last)
    decreases |a|
  {
    if a == [] {
      assert a + b == b;
    } else {
      RunsAppend(g, Apply(g, s, a[0].thread, a[0].move), a[1..], mid, b, last);
      assert (a + b)[1..] == a[1..] + b;
    }
  }

  lemma {:induction false} PoisonStays(g: Config, s: State, turns: seq<Turn>, last: State)
    requires Runs(g, s, turns, last)
    ensures s.poisoned <= last.poisoned && |last.slots| == |s.slots| && |last.threads| == |s.threads|
    decreases |turns|
  {
    if turns != [] { PoisonStays(g, Apply(g, s, turns[0].thread, turns[0].move), turns[1..], last); }
  }
}
