/** Adding up over a sequence, each element weighed by a function. */
module Sums {
  function Sum<T>(s: seq<T>, weigh: T -> nat): nat {
    if s == [] then 0 else Sum(s[..|s| - 1], weigh) + weigh(s[|s| - 1])
  }

  lemma {:induction false} SumUpdate<T>(s: seq<T>, i: nat, x: T, weigh: T -> nat)
    requires i < |s|
    ensures Sum(s[i := x], weigh) + weigh(s[i]) == Sum(s, weigh) + weigh(x)
    ensures weigh(s[i]) <= Sum(s, weigh)
  {
    var after, n := s[i := x], |s| - 1;
    if i == n {
      assert after[..n] == s[..n];
    } else {
      assert after[..n] == s[..n][i := x];
      SumUpdate(s[..n], i, x, weigh);
    }
  }

  lemma {:induction false} SumAppend<T>(a: seq<T>, b: seq<T>, weigh: T -> nat)
    ensures Sum(a + b, weigh) == Sum(a, weigh) + Sum(b, weigh)
  {
    if b == [] {
      assert a + b == a;
    } else {
      var n := |b| - 1;
      assert (a + b)[..|a| + n] == a + b[..n];
      SumAppend(a, b[..n], weigh);
    }
  }

  lemma SumOne<T>(x: T, weigh: T -> nat)
    ensures Sum([x], weigh) == weigh(x)
  {
    assert [x][..0] == [];
  }

  lemma {:induction false} SumZero<T>(s: seq<T>, weigh: T -> nat)
    requires forall x :: x in s ==> weigh(x) == 0
    ensures Sum(s, weigh) == 0
  {
    if s != [] { SumZero(s[..|s| - 1], weigh); }
  }
}
