/** The word stream an evaluation's context is hashed from, and why it can be read back.

    The hasher itself is a parameter of the modules that need it; here it is shown that the words
    it is fed determine the context, with one reserved pattern excepted. */
module ContextWords {
  import opened Wrappers
  import opened Scopes

  const NULL_WORD: nat := 0xD00D        // stands for a null reference
  const SKIP_TAG: nat := 0x5A5A5A5A
  const SAVED_TAG: nat := 0x51
  const FALLBACK_TAG: nat := 0x9D
  const COUNT_UNIT: nat := 0x100_0000
  const MAX_SCOPES: nat := 64           // larger stores are never read

  datatype SavedScope = SavedScope(id: nat, ref: ScopeRef)

  datatype Context = Context(node: nat, current: Option<ScopeRef>, prev: Option<ScopeRef>, root: Option<ScopeRef>,
                             saved: seq<SavedScope>, fallback: seq<SavedScope>, skip: nat)

  predicate RefInRange(r: ScopeRef) {
    r.kind < 0x1_0000 && r.sub < 0x1_0000 && r.handle < 0x1_0000_0000_0000_0000
  }

  predicate ScopesInRange(s: seq<SavedScope>) {
    |s| <= MAX_SCOPES && forall x :: x in s ==> x.id < 0x1_0000_0000 && RefInRange(x.ref)
  }

  /** The widths of the fields, and the bound under which a context is read at all. */
  predicate InRange(c: Context) {
    && c.node < 0x1_0000_0000_0000_0000 && c.skip < 0x100
    && (forall r :: r in {c.current, c.prev, c.root} && r.Some? ==> RefInRange(r.value))
    && ScopesInRange(c.saved) && ScopesInRange(c.fallback)
  }

  /** The one reference whose first word is the word for null. */
  predicate Reserved(r: Option<ScopeRef>) {
    r.Some? && r.value.kind == 0 && r.value.sub == NULL_WORD
  }

  predicate Decodable(c: Context) {
    InRange(c) && !Reserved(c.current) && !Reserved(c.prev) && !Reserved(c.root)
  }

  // ---- the stream ----------------------------------------------------------------------------

  function RefWords(r: ScopeRef): seq<nat> {
    [r.kind * 0x1_0000 + r.sub, r.handle]
  }

  function MaybeRefWords(r: Option<ScopeRef>): seq<nat> {
    match r
    case None => [NULL_WORD]
    case Some(ref) => RefWords(ref)
  }

  function ScopeWords(s: seq<SavedScope>, tag: nat): seq<nat> {
    if s == [] then [] else [tag + s[0].id * 2] + RefWords(s[0].ref) + ScopeWords(s[1..], tag)
  }

  function Words(c: Context): seq<nat> {
    [c.node] + (MaybeRefWords(c.current) + (MaybeRefWords(c.prev) + (MaybeRefWords(c.root) +
    ([SKIP_TAG + c.skip * 0x1_0000_0000, |c.saved| * COUNT_UNIT + |c.fallback|] +
    (ScopeWords(c.saved, SAVED_TAG) + ScopeWords(c.fallback, FALLBACK_TAG))))))
  }

  // ---- reading it back -----------------------------------------------------------------------

  function ReadRef(ws: seq<nat>): Option<(Option<ScopeRef>, seq<nat>)> {
    if ws == [] then None
    else if ws[0] == NULL_WORD then Some((None, ws[1..]))
    else if |ws| < 2 then None
    else Some((Some(ScopeRef(ws[0] / 0x1_0000, ws[0] % 0x1_0000, ws[1])), ws[2..]))
  }

  function ReadScopes(ws: seq<nat>, n: nat, tag: nat): Option<(seq<SavedScope>, seq<nat>)>
    decreases n
  {
    if n == 0 then Some(([], ws))
    else if |ws| < 3 || ws[0] < tag then None
    else
      var first := SavedScope((ws[0] - tag) / 2, ScopeRef(ws[1] / 0x1_0000, ws[1] % 0x1_0000, ws[2]));
      match ReadScopes(ws[3..], n - 1, tag)
      case None => None
      case Some((others, rest)) => Some(([first] + others, rest))
  }

  function ReadRefs(ws: seq<nat>): Option<(Option<ScopeRef>, Option<ScopeRef>, Option<ScopeRef>, seq<nat>)> {
    match ReadRef(ws)
    case None => None
    case Some((current, ws1)) =>
      match ReadRef(ws1)
      case None => None
      case Some((prev, ws2)) =>
        match ReadRef(ws2)
        case None => None
        case Some((root, rest)) => Some((current, prev, root, rest))
  }

  function Read(ws: seq<nat>): Option<Context> {
    if ws == [] then None
    else
      match ReadRefs(ws[1..])
      case None => None
      case Some((current, prev, root, rest)) =>
        if |rest| < 2 || rest[0] < SKIP_TAG then None
        else
          match ReadScopes(rest[2..], rest[1] / COUNT_UNIT, SAVED_TAG)
          case None => None
          case Some((saved, rest2)) =>
            match ReadScopes(rest2, rest[1] % COUNT_UNIT, FALLBACK_TAG)
            case None => None
            case Some((fallback, rest3)) =>
              if rest3 == []
              then Some(Context(ws[0], current, prev, root, saved, fallback, (rest[0] - SKIP_TAG) / 0x1_0000_0000))
              else None
  }

  lemma ReadRefWords(r: Option<ScopeRef>, rest: seq<nat>)
    requires !Reserved(r) && (r.Some? ==> RefInRange(r.value))
    ensures ReadRef(MaybeRefWords(r) + rest) == Some((r, rest))
  {
    var ws := MaybeRefWords(r) + rest;
    if r.None? {
      assert ws[1..] == rest;
    } else {
      assert ws[0] == r.value.kind * 0x1_0000 + r.value.sub && ws[1] == r.value.handle && ws[2..] == rest;
      assert ws[0] / 0x1_0000 == r.value.kind && ws[0] % 0x1_0000 == r.value.sub;
    }
  }

  lemma {:induction false} ReadScopeWords(s: seq<SavedScope>, tag: nat, rest: seq<nat>)
    requires ScopesInRange(s)
    ensures ReadScopes(ScopeWords(s, tag) + rest, |s|, tag) == Some((s, rest))
  {
    var ws := ScopeWords(s, tag) + rest;
    if s == [] {
      assert ws == rest;
    } else {
      var r := s[0].ref;
      assert s[0] in s && RefInRange(r);
      assert ws[0] == tag + s[0].id * 2 && ws[1] == r.kind * 0x1_0000 + r.sub && ws[2] == r.handle;
      assert ws[1] / 0x1_0000 == r.kind && ws[1] % 0x1_0000 == r.sub;
      assert ws[3..] == ScopeWords(s[1..], tag) + rest;
      ReadScopeWords(s[1..], tag, rest);
      assert [s[0]] + s[1..] == s;
    }
  }

  /** The stream determines the context. */
  lemma ReadWords(c: Context)
    requires Decodable(c)
    ensures Read(Words(c)) == Some(c)
  {
    hide ScopeWords, ReadScopes, MaybeRefWords, ReadRef;
    var scopes := ScopeWords(c.saved, SAVED_TAG) + ScopeWords(c.fallback, FALLBACK_TAG);
    var counts := [SKIP_TAG + c.skip * 0x1_0000_0000, |c.saved| * COUNT_UNIT + |c.fallback|];
    var rest := counts + scopes;
    ReadRefWords(c.current, MaybeRefWords(c.prev) + (MaybeRefWords(c.root) + rest));
    ReadRefWords(c.prev, MaybeRefWords(c.root) + rest);
    ReadRefWords(c.root, rest);
    ReadScopeWords(c.saved, SAVED_TAG, ScopeWords(c.fallback, FALLBACK_TAG));
    ReadScopeWords(c.fallback, FALLBACK_TAG, []);
    var ws := Words(c);
    assert ws[1..] == MaybeRefWords(c.current) + (MaybeRefWords(c.prev) + (MaybeRefWords(c.root) + rest));
    assert rest[2..] == scopes;
    assert rest[1] / COUNT_UNIT == |c.saved| && rest[1] % COUNT_UNIT == |c.fallback|;
    assert ScopeWords(c.fallback, FALLBACK_TAG) + [] == ScopeWords(c.fallback, FALLBACK_TAG);
  }

  lemma WordsDetermineContext(c: Context, d: Context)
    requires Decodable(c) && Decodable(d) && Words(c) == Words(d)
    ensures c == d
  {
    ReadWords(c);
    ReadWords(d);
  }

  /** The exception is real: with the reserved pattern allowed, two contexts share their words. */
  lemma ReservedPatternCollides() returns (c: Context, d: Context)
    ensures InRange(c) && InRange(d) && c != d && Words(c) == Words(d)
    ensures Reserved(c.current) && Decodable(d)
  {
    // 0xD00D, 4 * 2^16, 0xD00D, 0xD00D is (reserved, null, null) and (null, (4, 0, 0xD00D), null).
    c := Context(1, Some(ScopeRef(0, NULL_WORD, 0x4_0000)), None, None, [], [], 0);
    d := Context(1, None, Some(ScopeRef(4, 0, NULL_WORD)), None, [], [], 0);
    assert Words(c) == [1, NULL_WORD, 0x4_0000, NULL_WORD, NULL_WORD, SKIP_TAG, 0];
    assert Words(d) == [1, NULL_WORD, 0x4_0000, NULL_WORD, NULL_WORD, SKIP_TAG, 0];
  }
}
