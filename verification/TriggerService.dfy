/** The shared trigger-evaluator hook: the handler list kept in descending priority, and the chain that
    runs it. */
module TriggerService {
  import opened Wrappers

  const MAX_HANDLERS := 16

  /** An evaluation: a request and the state it starts in give a reply and the state it leaves. */
  type Evaluator<!Q, !W, !R> = (Q, W) -> (R, W)

  /** A handler is given the rest of the chain, which it may call any number of times, and the user value
      it was registered with. */
  type Behaviour<!U, !Q, !W, !R> = ((Q, W) -> (R, W), U, Q, W) -> (R, W)

  datatype Handler<!U, !Q, !W, !R> = Handler(fn: Behaviour<U, Q, W, R>, user: U, priority: int)

  // ---- the list ------------------------------------------------------------------------------

  ghost predicate Descending<U, Q, W, R>(hs: seq<Handler<U, Q, W, R>>) {
    forall i, j :: 0 <= i < j < |hs| ==> hs[i].priority >= hs[j].priority
  }

  /** Behind every handler of at least its priority. */
  function Inserted<U, Q, W, R>(hs: seq<Handler<U, Q, W, R>>, h: Handler<U, Q, W, R>): (r: seq<Handler<U, Q, W, R>>)
    ensures |r| == |hs| + 1
  {
    if hs == [] || hs[|hs| - 1].priority >= h.priority then hs + [h]
    else Inserted(hs[..|hs| - 1], h) + [hs[|hs| - 1]]
  }

  /** The handlers of one priority, in order. */
  function At<U, Q, W, R>(hs: seq<Handler<U, Q, W, R>>, p: int): seq<Handler<U, Q, W, R>> {
    if hs == [] then []
    else At(hs[..|hs| - 1], p) + if hs[|hs| - 1].priority == p then [hs[|hs| - 1]] else []
  }

  /** Of each priority the same handlers in the same order. */
  ghost predicate SameByPriority<U, Q, W, R>(xs: seq<Handler<U, Q, W, R>>, ys: seq<Handler<U, Q, W, R>>) {
    forall p :: At(xs, p) == At(ys, p)
  }

  /** The list after registrations; those that find it full change nothing. */
  function Registered<U, Q, W, R>(rs: seq<Handler<U, Q, W, R>>): (r: seq<Handler<U, Q, W, R>>)
    ensures |r| == if |rs| <= MAX_HANDLERS then |rs| else MAX_HANDLERS
  {
    if rs == [] then []
    else
      var hs := Registered(rs[..|rs| - 1]);
      if |hs| >= MAX_HANDLERS then hs else Inserted(hs, rs[|rs| - 1])
  }

  lemma {:induction false} InsertedDescends<U, Q, W, R>(hs: seq<Handler<U, Q, W, R>>, h: Handler<U, Q, W, R>)
    requires Descending(hs)
    ensures Descending(Inserted(hs, h))
    ensures forall k :: 0 <= k < |hs| + 1 ==>
              || Inserted(hs, h)[k].priority >= h.priority
              || (hs != [] && Inserted(hs, h)[k].priority >= hs[|hs| - 1].priority)
  {
    if hs == [] || hs[|hs| - 1].priority >= h.priority {
    } else {
      InsertedDescends(hs[..|hs| - 1], h);
    }
  }

  lemma {:induction false} InsertedIsStable<U, Q, W, R>(hs: seq<Handler<U, Q, W, R>>, h: Handler<U, Q, W, R>, p: int)
    requires Descending(hs)
    ensures At(Inserted(hs, h), p) == At(hs, p) + if h.priority == p then [h] else []
  {
    var r := Inserted(hs, h);
    if hs == [] || hs[|hs| - 1].priority >= h.priority {
      assert r[..|r| - 1] == hs;
    } else {
      var last := hs[|hs| - 1];
      assert r[..|r| - 1] == Inserted(hs[..|hs| - 1], h);
      InsertedIsStable(hs[..|hs| - 1], h, p);
    }
  }

  /** The registrations that found room. */
  function Kept<U, Q, W, R>(rs: seq<Handler<U, Q, W, R>>): seq<Handler<U, Q, W, R>> {
    if |rs| <= MAX_HANDLERS then rs else rs[..MAX_HANDLERS]
  }

  /** After any registrations the list descends, and of each priority it holds those registered while
      there was room, in that order. */
  lemma {:induction false} RegisteredIsStableSort<U, Q, W, R>(rs: seq<Handler<U, Q, W, R>>)
    ensures Descending(Registered(rs))
    ensures SameByPriority(Registered(rs), Kept(rs))
  {
    if rs != [] {
      var before := rs[..|rs| - 1];
      RegisteredIsStableSort(before);
      var hs := Registered(before);
      if |rs| <= MAX_HANDLERS {
        InsertedDescends(hs, rs[|rs| - 1]);
        forall p ensures At(Registered(rs), p) == At(rs, p) {
          InsertedIsStable(hs, rs[|rs| - 1], p);
        }
      } else {
        assert Kept(before) == Kept(rs);
      }
    }
  }

  lemma {:induction false} AtMembers<U, Q, W, R>(hs: seq<Handler<U, Q, W, R>>, p: int)
    ensures At(hs, p) == [] <==> forall k :: 0 <= k < |hs| ==> hs[k].priority != p
    ensures forall k :: 0 <= k < |At(hs, p)| ==> At(hs, p)[k].priority == p
  {
    if hs != [] {
      AtMembers(hs[..|hs| - 1], p);
      if hs[|hs| - 1].priority != p && At(hs, p) == [] {
        forall k | 0 <= k < |hs| ensures hs[k].priority != p {
          if k < |hs| - 1 { assert hs[..|hs| - 1][k] == hs[k]; }
        }
      }
    }
  }

  lemma AtLast<U, Q, W, R>(hs: seq<Handler<U, Q, W, R>>, p: int)
    requires hs != []
    ensures var last, here := hs[|hs| - 1], At(hs, p);
            if last.priority == p
            then here != [] && here[|here| - 1] == last && At(hs[..|hs| - 1], p) == here[..|here| - 1]
            else At(hs[..|hs| - 1], p) == here
  {
  }

  lemma LowestPriority<U, Q, W, R>(xs: seq<Handler<U, Q, W, R>>, ys: seq<Handler<U, Q, W, R>>)
    requires Descending(xs) && Descending(ys) && xs != []
    requires SameByPriority(xs, ys)
    ensures ys != [] && ys[|ys| - 1].priority <= xs[|xs| - 1].priority
  {
    hide At;
    var p := xs[|xs| - 1].priority;
    AtMembers(xs, p);
    AtMembers(ys, p);
    assert At(xs, p) == At(ys, p);
  }

  /** Descending order and the order within each priority leave one list only. */
  lemma {:induction false} StableSortIsUnique<U, Q, W, R>(xs: seq<Handler<U, Q, W, R>>, ys: seq<Handler<U, Q, W, R>>)
    requires Descending(xs) && Descending(ys)
    requires SameByPriority(xs, ys)
    ensures xs == ys
    decreases |xs|
  {
    hide At;
    if ys != [] { LowestPriority(ys, xs); }
    if xs != [] {
      LowestPriority(xs, ys);
      var xs', ys' := xs[..|xs| - 1], ys[..|ys| - 1];
      forall p ensures At(xs', p) == At(ys', p) {
        assert At(xs, p) == At(ys, p);
        AtLast(xs, p);
        AtLast(ys, p);
      }
      StableSortIsUnique(xs', ys');
      AtLast(xs, xs[|xs| - 1].priority);
      AtLast(ys, xs[|xs| - 1].priority);
      assert xs == xs' + [xs[|xs| - 1]] && ys == ys' + [ys[|ys| - 1]];
    }
  }

  /** So the list is the one stable sort, by descending priority, of the registrations that found room. */
  lemma RegisteredIsTheStableSort<U, Q, W, R>(rs: seq<Handler<U, Q, W, R>>, hs: seq<Handler<U, Q, W, R>>)
    ensures hs == Registered(rs) <==> Descending(hs) && SameByPriority(hs, Kept(rs))
  {
    hide Registered, Kept, Descending;
    RegisteredIsStableSort(rs);
    if Descending(hs) && SameByPriority(hs, Kept(rs)) { StableSortIsUnique(hs, Registered(rs)); }
  }

  // ---- the chain -----------------------------------------------------------------------------

  /** The evaluation from an index on: the handler there, with the rest of the chain, or the original
      evaluator when the index is outside the list. */
  function ChainInvoke<U, Q, W, R>(hs: seq<Handler<U, Q, W, R>>, orig: Evaluator<Q, W, R>, idx: int, q: Q, w: W): (R, W)
    decreases |hs| - idx
  {
    if idx < 0 || idx >= |hs| then orig(q, w)
    else hs[idx].fn((q', w') => ChainInvoke(hs, orig, idx + 1, q', w'), hs[idx].user, q, w)
  }

  function Detour<U, Q, W, R>(hs: seq<Handler<U, Q, W, R>>, orig: Evaluator<Q, W, R>, q: Q, w: W): (R, W) {
    ChainInvoke(hs, orig, 0, q, w)
  }

  ghost predicate SameAnswers<Q(!new), W(!new), R>(f: Evaluator<Q, W, R>, g: Evaluator<Q, W, R>) {
    forall q, w :: f(q, w) == g(q, w)
  }

  /** A handler that answers as the original does whenever the rest of the chain does. */
  ghost predicate Preserving<U, Q(!new), W(!new), R(!new)>(h: Handler<U, Q, W, R>, orig: Evaluator<Q, W, R>) {
    forall next: Evaluator<Q, W, R> :: SameAnswers(next, orig) ==> forall q, w :: h.fn(next, h.user, q, w) == orig(q, w)
  }

  lemma {:induction false} ChainIsTransparent<U, Q(!new), W(!new), R(!new)>(
      hs: seq<Handler<U, Q, W, R>>, orig: Evaluator<Q, W, R>, idx: int)
    requires forall h :: h in hs ==> Preserving(h, orig)
    ensures forall q, w :: ChainInvoke(hs, orig, idx, q, w) == orig(q, w)
    decreases |hs| - idx
  {
    if 0 <= idx < |hs| {
      ChainIsTransparent(hs, orig, idx + 1);
      var next: Evaluator<Q, W, R> := (q', w') => ChainInvoke(hs, orig, idx + 1, q', w');
      assert SameAnswers(next, orig);
      assert Preserving(hs[idx], orig);
    }
  }

  /** If every registered handler is result-preserving, the hooked evaluator is the original one. */
  lemma DetourIsTransparent<U, Q(!new), W(!new), R(!new)>(
      hs: seq<Handler<U, Q, W, R>>, orig: Evaluator<Q, W, R>, q: Q, w: W)
    requires forall h :: h in hs ==> Preserving(h, orig)
    ensures Detour(hs, orig, q, w) == orig(q, w)
  {
    ChainIsTransparent(hs, orig, 0);
  }

  /** A handler that leaves its mark in the state and passes on. */
  ghost predicate Marks<U, Q(!new), W(!new), R(!new)>(h: Handler<U, Q, W, R>, mark: (U, W) -> W) {
    forall next: Evaluator<Q, W, R>, q, w :: h.fn(next, h.user, q, w) == next(q, mark(h.user, w))
  }

  function MarkAll<U, Q, W, R>(hs: seq<Handler<U, Q, W, R>>, mark: (U, W) -> W, w: W): W {
    if hs == [] then w else MarkAll(hs[1..], mark, mark(hs[0].user, w))
  }

  /** The chain visits the handlers from its index on, in list order, each once and with its own user
      value, and ends at the original evaluator. */
  lemma {:induction false} ChainVisitsInOrder<U, Q(!new), W(!new), R(!new)>(
      hs: seq<Handler<U, Q, W, R>>, orig: Evaluator<Q, W, R>, mark: (U, W) -> W, idx: nat, q: Q, w: W)
    requires idx <= |hs| && forall h :: h in hs ==> Marks(h, mark)
    ensures ChainInvoke(hs, orig, idx, q, w) == orig(q, MarkAll(hs[idx..], mark, w))
    decreases |hs| - idx
  {
    if idx < |hs| {
      assert Marks(hs[idx], mark);
      assert hs[idx..][1..] == hs[idx + 1..];
      ChainVisitsInOrder(hs, orig, mark, idx + 1, q, mark(hs[idx].user, w));
    }
  }

  lemma InsertedShift<U, Q, W, R>(hs: seq<Handler<U, Q, W, R>>, h: Handler<U, Q, W, R>, pos: nat)
    requires 0 < pos <= |hs| && hs[pos - 1].priority < h.priority
    ensures Inserted(hs[..pos], h) + hs[pos..] == Inserted(hs[..pos - 1], h) + hs[pos - 1..]
  {
    assert hs[..pos][..pos - 1] == hs[..pos - 1];
    assert hs[pos - 1..] == [hs[pos - 1]] + hs[pos..];
  }

  lemma InsertedStop<U, Q, W, R>(hs: seq<Handler<U, Q, W, R>>, h: Handler<U, Q, W, R>, pos: nat)
    requires pos <= |hs| && (pos > 0 ==> hs[pos - 1].priority >= h.priority)
    ensures Inserted(hs[..pos], h) + hs[pos..] == hs[..pos] + [h] + hs[pos..]
  {
  }

  // ---- registration in place -----------------------------------------------------------------

  function Values<T>(s: seq<Option<T>>): (vs: seq<T>)
    requires forall k :: 0 <= k < |s| ==> s[k].Some?
    ensures |vs| == |s|
  {
    seq(|s|, k requires 0 <= k < |s| => s[k].value)
  }

  lemma ValuesAt<T>(s: seq<Option<T>>)
    requires forall k :: 0 <= k < |s| ==> s[k].Some?
    ensures forall k :: 0 <= k < |s| ==> s[k] == Some(Values(s)[k])
  {
  }

  lemma ValuesAre<T>(s: seq<Option<T>>, vs: seq<T>)
    requires |vs| == |s| && forall k :: 0 <= k < |s| ==> s[k] == Some(vs[k])
    ensures Values(s) == vs
  {
  }

  /** The handlers hs, with a slot between them open at pos. */
  ghost predicate OpenAt<T>(s: seq<Option<T>>, hs: seq<T>, pos: nat) {
    && |hs| < |s| && pos <= |hs|
    && (forall k :: 0 <= k < pos ==> s[k] == Some(hs[k]))
    && (forall k :: pos < k <= |hs| ==> s[k] == Some(hs[k - 1]))
  }

  lemma OpenAtEnd<T>(s: seq<Option<T>>, hs: seq<T>)
    requires |hs| < |s| && (forall k :: 0 <= k < |hs| ==> s[k].Some?) && hs == Values(s[..|hs|])
    ensures OpenAt(s, hs, |hs|) && forall k :: 0 <= k < |hs| ==> s[k] == Some(hs[k])
  {
    ValuesAt(s[..|hs|]);
  }

  lemma OpenBelow<T>(s: seq<Option<T>>, hs: seq<T>, pos: nat)
    requires OpenAt(s, hs, pos) && 0 < pos < |s|
    ensures OpenAt(s[pos := s[pos - 1]], hs, pos - 1)
  {
  }

  lemma OpenFilled<T>(s: seq<Option<T>>, hs: seq<T>, pos: nat, h: T)
    requires OpenAt(s, hs, pos) && pos < |s|
    ensures var s', hs' := s[pos := Some(h)][..|hs| + 1], hs[..pos] + [h] + hs[pos..];
            (forall k :: 0 <= k < |s'| ==> s'[k].Some?) && Values(s') == hs'
  {
    ValuesAre(s[pos := Some(h)][..|hs| + 1], hs[..pos] + [h] + hs[pos..]);
  }

  class Service<U, Q, W, R> {
    const handlers: array<Option<Handler<U, Q, W, R>>>
    var count: nat

    ghost predicate Valid()
      reads this, handlers
    {
      && handlers.Length == MAX_HANDLERS && count <= MAX_HANDLERS
      && forall k :: 0 <= k < count ==> handlers[k].Some?
    }

    ghost function Contents(): seq<Handler<U, Q, W, R>>
      requires Valid()
      reads this, handlers
    {
      Values(handlers[..count])
    }

    constructor ()
      ensures Valid() && fresh(handlers) && Contents() == Registered([])
    {
      handlers := new Option<Handler<U, Q, W, R>>[MAX_HANDLERS](_ => None);
      count := 0;
    }

    /** Shifts the handlers of lower priority up by one. */
    method MakeRoom(h: Handler<U, Q, W, R>) returns (pos: nat)
      requires Valid() && count < MAX_HANDLERS
      modifies handlers
      ensures pos <= count && OpenAt(handlers[..], old(Contents()), pos)
      ensures Inserted(old(Contents()), h) == old(Contents())[..pos] + [h] + old(Contents())[pos..]
    {
      hide Inserted, Values, OpenAt;
      pos := count;
      ghost var before := Contents();
      OpenAtEnd(handlers[..], before);
      assert before[..pos] == before && before[pos..] == [];
      while pos > 0 && handlers[pos - 1].value.priority < h.priority
        invariant pos <= count && OpenAt(handlers[..], before, pos)
        invariant forall k :: 0 <= k < pos ==> handlers[k] == Some(before[k])
        invariant Inserted(before, h) == Inserted(before[..pos], h) + before[pos..]
      {
        OpenBelow(handlers[..], before, pos);
        handlers[pos] := handlers[pos - 1];
        InsertedShift(before, h, pos);
        pos := pos - 1;
      }
      InsertedStop(before, h, pos);
    }

    /** Nothing happens for a null handler or a full list. */
    method Register(fn: Option<Behaviour<U, Q, W, R>>, user: U, priority: int)
      requires Valid()
      modifies `count, handlers
      ensures Valid()
      ensures Contents() == if fn.None? || |old(Contents())| == MAX_HANDLERS then old(Contents())
                            else Inserted(old(Contents()), Handler(fn.value, user, priority))
    {
      hide Inserted, Values, OpenAt;
      if fn.None? { return; }
      if count >= MAX_HANDLERS { return; }
      var h := Handler(fn.value, user, priority);
      ghost var before := Contents();
      var pos := MakeRoom(h);
      ghost var filled := handlers[..][pos := Some(h)][..count + 1];
      OpenFilled(handlers[..], before, pos, h);
      handlers[pos] := Some(h);
      count := count + 1;
      assert handlers[..count] == filled;
      assert forall k :: 0 <= k < count ==> handlers[k] == filled[k];
    }
  }
}
