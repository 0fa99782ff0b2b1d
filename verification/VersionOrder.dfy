/** Dotted version strings: how they are split, what their components are worth, and the order they
    are compared in. */
module VersionOrder {
  import J = VersionsJson
  import P = VersionsPrinter

  newtype uint64 = x: int | 0 <= x < 0x1_0000_0000_0000_0000

  const MAX_COMPONENT: uint64 := 1_000_000_000_000_000

  // ---- components ----------------------------------------------------------------------------

  /** The number the leading digits spell, at most MAX_COMPONENT. */
  function Component(s: string): nat {
    J.TakeDigitsAreDigits(s);
    var n := J.DigitsValue(J.TakeDigits(s).0);
    if n > MAX_COMPONENT as nat then MAX_COMPONENT as nat else n
  }

  ghost predicate AllDigits(s: string) {
    forall c :: c in s ==> J.IsDigit(c)
  }

  lemma {:induction false} DigitsSoFar(s: string, k: nat)
    requires k <= |s| && AllDigits(s[..k])
    ensures s[..k] <= J.TakeDigits(s).0
    ensures k == |s| || !J.IsDigit(s[k]) ==> J.TakeDigits(s).0 == s[..k]
  {
    if k > 0 {
      assert s[0] == s[..k][0];
      assert s[1..][..k - 1] == s[..k][1..];
      DigitsSoFar(s[1..], k - 1);
      assert s[..k] == [s[0]] + s[1..][..k - 1];
    }
  }

  lemma {:induction false} LongerIsNoLess(ds: string, k: nat)
    requires k <= |ds| && AllDigits(ds)
    ensures AllDigits(ds[..k]) && J.DigitsValue(ds[..k]) <= J.DigitsValue(ds)
    decreases |ds| - k
  {
    if k == |ds| {
      assert ds[..k] == ds;
    } else {
      LongerIsNoLess(ds, k + 1);
      assert ds[..k + 1][..k] == ds[..k];
    }
  }

  method ParseComponent(s: string) returns (value: uint64)
    ensures value as nat == Component(s)
  {
    hide J.TakeDigits, J.DigitsValue;
    value := 0;
    NoDigits();
    J.TakeDigitsAreDigits(s);
    for k := 0 to |s|
      invariant AllDigits(s[..k]) && value <= MAX_COMPONENT && value as nat == J.DigitsValue(s[..k])
    {
      DigitsSoFar(s, k);
      if !J.IsDigit(s[k]) { return; }
      assert s[..k + 1] == s[..k] + [s[k]];
      OneMoreDigit(s[..k], s[k]);
      value := value * 10 + (s[k] - '0') as uint64;
      if value > MAX_COMPONENT {
        DigitsSoFar(s, k + 1);
        assert J.TakeDigits(s).0[..k + 1] == s[..k + 1];
        LongerIsNoLess(J.TakeDigits(s).0, k + 1);
        return MAX_COMPONENT;
      }
    }
    DigitsSoFar(s, |s|);
  }

  lemma NoDigits()
    ensures J.DigitsValue("") == 0
  {
  }

  lemma OneMoreDigit(ds: string, c: char)
    requires AllDigits(ds) && J.IsDigit(c)
    ensures AllDigits(ds + [c]) && J.DigitsValue(ds + [c]) == 10 * J.DigitsValue(ds) + (c - '0') as nat
  {
    assert (ds + [c])[..|ds|] == ds;
  }

  // ---- splitting -----------------------------------------------------------------------------

  /** The parts between the dots; always at least one. */
  function Split(v: string): (parts: seq<string>)
    ensures parts != []
  {
    if v == [] then [""]
    else
      var parts := Split(v[..|v| - 1]);
      var c := v[|v| - 1];
      if c == '.' then parts + [""] else parts[..|parts| - 1] + [parts[|parts| - 1] + [c]]
  }

  function Join(parts: seq<string>): string
    requires parts != []
  {
    if |parts| == 1 then parts[0] else Join(parts[..|parts| - 1]) + "." + parts[|parts| - 1]
  }

  ghost predicate DotFree(p: string) {
    '.' !in p
  }

  lemma {:induction false} SplitPart(v: string, p: string)
    requires DotFree(p)
    ensures Split(v + p) == Split(v)[..|Split(v)| - 1] + [Split(v)[|Split(v)| - 1] + p]
    decreases |p|
  {
    var parts := Split(v);
    if p == [] {
      assert v + p == v && parts[|parts| - 1] + p == parts[|parts| - 1];
    } else {
      var p', c := p[..|p| - 1], p[|p| - 1];
      assert p == p' + [c];
      SplitPart(v, p');
      assert (v + p)[..|v + p| - 1] == v + p';
      assert (parts[|parts| - 1] + p') + [c] == parts[|parts| - 1] + p;
    }
  }

  lemma SplitDot(v: string, p: string)
    requires DotFree(p)
    ensures Split(v + "." + p) == Split(v) + [p]
  {
    assert (v + ".")[..|v|] == v;
    assert Split(v + ".") == Split(v) + [""];
    SplitPart(v + ".", p);
    assert "" + p == p;
  }

  lemma {:induction false} SplitIsDotFree(v: string)
    ensures forall p :: p in Split(v) ==> DotFree(p)
    ensures Join(Split(v)) == v
  {
    if v != [] {
      var v', c := v[..|v| - 1], v[|v| - 1];
      SplitIsDotFree(v');
      var parts := Split(v');
      assert DotFree(parts[|parts| - 1]);
      if c == '.' {
        assert Split(v)[..|parts|] == parts;
        assert Join(Split(v)) == v' + "." + "";
      } else {
        assert Split(v)[..|parts| - 1] == parts[..|parts| - 1];
        if |parts| > 1 {
          assert Join(parts[..|parts| - 1]) + "." + (parts[|parts| - 1] + [c]) == Join(parts) + [c];
        }
      }
    }
  }

  lemma {:induction false} JoinThenSplit(parts: seq<string>)
    requires parts != [] && forall p :: p in parts ==> DotFree(p)
    ensures Split(Join(parts)) == parts
  {
    var last := parts[|parts| - 1];
    if |parts| == 1 {
      SplitPart("", last);
      assert "" + last == last;
      assert parts == [last];
    } else {
      JoinThenSplit(parts[..|parts| - 1]);
      SplitDot(Join(parts[..|parts| - 1]), last);
    }
  }

  /** Splitting gives the one list of dot-free parts that joins to the text. */
  lemma SplitIsExact(v: string, parts: seq<string>)
    requires parts != []
    ensures parts == Split(v) <==> Join(parts) == v && forall p :: p in parts ==> DotFree(p)
  {
    SplitIsDotFree(v);
    if Join(parts) == v && forall p :: p in parts ==> DotFree(p) { JoinThenSplit(parts); }
  }

  method SplitDotted(v: string) returns (parts: seq<string>)
    ensures parts == Split(v)
  {
    parts := [];
    var cur := "";
    assert v[..0] == "";
    for k := 0 to |v|
      invariant parts + [cur] == Split(v[..k])
    {
      assert v[..k + 1][..k] == v[..k];
      assert Split(v[..k])[..|Split(v[..k])| - 1] == parts;
      if v[k] == '.' {
        parts := parts + [cur];
        cur := "";
      } else {
        cur := cur + [v[k]];
      }
    }
    parts := parts + [cur];
    assert v[..|v|] == v;
  }

  // ---- the order -----------------------------------------------------------------------------

  /** A version as a vector without end: beyond its last component it is zero. */
  function At(v: string, k: nat): nat {
    var parts := Split(v);
    if k < |parts| then Component(parts[k]) else 0
  }

  ghost predicate AgreeTo(a: string, b: string, n: nat) {
    forall k: nat :: k < n ==> At(a, k) == At(b, k)
  }

  /** a comes first in the lexicographic order of the vectors, at component n. */
  ghost predicate BeforeAt(a: string, b: string, n: nat) {
    AgreeTo(a, b, n) && At(a, n) < At(b, n)
  }

  ghost predicate Before(a: string, b: string) {
    exists n: nat :: BeforeAt(a, b, n)
  }

  ghost predicate SameVector(a: string, b: string) {
    forall n: nat :: At(a, n) == At(b, n)
  }

  method CompareVersions(a: string, b: string) returns (r: int)
    ensures r == -1 <==> Before(a, b)
    ensures r == 1 <==> Before(b, a)
    ensures r == 0 <==> SameVector(a, b)
    ensures -1 <= r <= 1
  {
    hide Component, Split;
    var pa := SplitDotted(a);
    var pb := SplitDotted(b);
    var n := if |pa| > |pb| then |pa| else |pb|;
    for k := 0 to n
      invariant AgreeTo(a, b, k)
    {
      var va: uint64 := 0;
      var vb: uint64 := 0;
      if k < |pa| { va := ParseComponent(pa[k]); }
      if k < |pb| { vb := ParseComponent(pb[k]); }
      assert va as nat == At(a, k) && vb as nat == At(b, k);
      if va < vb {
        ComesFirst(a, b, k);
        return -1;
      }
      if va > vb {
        ComesFirst(b, a, k);
        return 1;
      }
    }
    Same(a, b, n);
    return 0;
  }

  /** A first difference decides. */
  lemma ComesFirst(a: string, b: string, n: nat)
    requires BeforeAt(a, b, n)
    ensures Before(a, b) && !Before(b, a) && !SameVector(a, b)
  {
    hide At;
  }

  lemma Same(a: string, b: string, n: nat)
    requires AgreeTo(a, b, n) && n >= |Split(a)| && n >= |Split(b)|
    ensures SameVector(a, b) && !Before(a, b) && !Before(b, a)
  {
    hide Component, Split;
    forall k: nat ensures At(a, k) == At(b, k) {
      if k < n { assert At(a, k) == At(b, k); }
    }
  }

  /** Two versions compare in exactly one way. */
  lemma OrderIsTotal(a: string, b: string)
    ensures (if Before(a, b) then 1 else 0) + (if Before(b, a) then 1 else 0) + (if SameVector(a, b) then 1 else 0) == 1
  {
    var n := if |Split(a)| > |Split(b)| then |Split(a)| else |Split(b)|;
    FirstDifference(a, b, n);
    if k: nat :| BeforeAt(a, b, k) {
      ComesFirst(a, b, k);
    } else if k: nat :| BeforeAt(b, a, k) {
      ComesFirst(b, a, k);
    } else {
      Same(a, b, n);
    }
  }

  lemma {:induction false} FirstDifference(a: string, b: string, n: nat)
    ensures AgreeTo(a, b, n) || Before(a, b) || Before(b, a)
  {
    hide At;
    if n > 0 {
      FirstDifference(a, b, n - 1);
      if AgreeTo(a, b, n - 1) && At(a, n - 1) != At(b, n - 1) {
        assert BeforeAt(a, b, n - 1) || BeforeAt(b, a, n - 1);
      }
    }
  }

  /** Not after: what the gate tests. */
  ghost predicate AtMost(a: string, b: string) {
    Before(a, b) || SameVector(a, b)
  }

  lemma OrderIsTransitive(a: string, b: string, c: string)
    requires AtMost(a, b) && AtMost(b, c)
    ensures AtMost(a, c)
    ensures Before(a, b) || Before(b, c) ==> Before(a, c)
  {
    hide At;
    if Before(a, b) {
      var n: nat :| BeforeAt(a, b, n);
      if Before(b, c) {
        var m: nat :| BeforeAt(b, c, m);
        BeforeThrough(a, b, c, n, m);
      } else {
        assert BeforeAt(a, c, n);
      }
    } else if Before(b, c) {
      var m: nat :| BeforeAt(b, c, m);
      assert BeforeAt(a, c, m);
    }
  }

  lemma BeforeThrough(a: string, b: string, c: string, n: nat, m: nat)
    requires BeforeAt(a, b, n) && BeforeAt(b, c, m)
    ensures Before(a, c)
  {
    hide At;
    var k := if n < m then n else m;
    forall j: nat | j < k ensures At(a, j) == At(c, j) {
      assert At(a, j) == At(b, j) && At(b, j) == At(c, j);
    }
    if n < m { assert At(b, n) == At(c, n); } else if m < n { assert At(a, m) == At(b, m); }
    assert BeforeAt(a, c, k);
  }

  lemma JoinedAt(ps: seq<string>, p: string, rest: seq<string>, k: nat)
    requires forall x :: x in ps + [p] + rest ==> DotFree(x)
    requires k <= |ps|
    ensures At(Join(ps + [p] + rest), k) == Component(if k < |ps| then ps[k] else p)
  {
    hide Component, Split, Join;
    JoinThenSplit(ps + [p] + rest);
  }

  /** The first component worth a different number decides, whatever follows it: the version with the smaller
      one comes first. */
  lemma DifferenceDecides(ps: seq<string>, p: string, q: string, rest: seq<string>, other: seq<string>)
    requires forall x :: x in ps + [p] + rest ==> DotFree(x)
    requires forall x :: x in ps + [q] + other ==> DotFree(x)
    requires Component(p) < Component(q)
    ensures Before(Join(ps + [p] + rest), Join(ps + [q] + other))
    ensures !Before(Join(ps + [q] + other), Join(ps + [p] + rest))
  {
    hide Component, Split, Join, At, DotFree;
    var a, b := Join(ps + [p] + rest), Join(ps + [q] + other);
    forall k: nat | k <= |ps|
      ensures At(a, k) == Component(if k < |ps| then ps[k] else p)
      ensures At(b, k) == Component(if k < |ps| then ps[k] else q)
    {
      JoinedAt(ps, p, rest, k);
      JoinedAt(ps, q, other, k);
    }
    ComesFirst(a, b, |ps|);
  }

  /** A component that starts with a number written in decimal is worth that number, up to 10^15. */
  lemma ComponentIsNumber(n: nat, rest: string)
    requires rest == "" || !J.IsDigit(rest[0])
    ensures Component(P.Decimal(n) + rest) == if n < 1_000_000_000_000_000 then n else 1_000_000_000_000_000
  {
    hide P.Decimal, J.DigitsValue, J.TakeDigits;
    var ds := P.Decimal(n);
    var s := ds + rest;
    assert s[..|ds|] == ds;
    DigitsSoFar(s, |ds|);
  }

  /** A further component makes no difference exactly when it is worth zero, as in ".0". */
  lemma TrailingZero(v: string, p: string)
    requires DotFree(p)
    ensures SameVector(v + "." + p, v) <==> Component(p) == 0
  {
    hide Component, Split;
    SplitDot(v, p);
    assert At(v + "." + p, |Split(v)|) == Component(p) && At(v, |Split(v)|) == 0;
  }

  lemma ZeroIsZero()
    ensures DotFree("0") && Component("0") == 0 && DotFree("") && Component("") == 0
  {
    assert "0"[1..] == "" && ['0'] + "" == "0";
    OneMoreDigit("", '0');
    assert "" + ['0'] == "0";
  }

  lemma TrailingDotZero(v: string)
    ensures SameVector(v + ".0", v)
  {
    hide Component, SameVector, DotFree;
    ZeroIsZero();
    TrailingZero(v, "0");
    assert v + "." + "0" == v + ".0";
  }
}
