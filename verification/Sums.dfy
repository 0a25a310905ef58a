/** Totals over the elements of a sequence, as numbers and as multisets. */
module Sums {

  function Sum<T>(s: seq<T>, f: T -> nat): nat
  {
    if s == [] then 0 else f(s[0]) + Sum(s[1..], f)
  }

  lemma {:induction false} SumUpdate<T>(s: seq<T>, i: nat, x: T, f: T -> nat)
    requires i < |s|
    ensures Sum(s[i := x], f) + f(s[i]) == Sum(s, f) + f(x)
  {
    if i == 0 {
      assert s[i := x][1..] == s[1..];
    } else {
      assert s[i := x][1..] == s[1..][i - 1 := x];
      SumUpdate(s[1..], i - 1, x, f);
    }
  }

  lemma {:induction false} SumAppend<T>(s: seq<T>, x: T, f: T -> nat)
    ensures Sum(s + [x], f) == Sum(s, f) + f(x)
  {
    if s == [] {
      assert s + [x] == [x];
    } else {
      assert (s + [x])[1..] == s[1..] + [x];
      SumAppend(s[1..], x, f);
    }
  }

  /** A total is zero exactly when every element weighs nothing. */
  lemma {:induction false} SumZero<T>(s: seq<T>, f: T -> nat)
    ensures Sum(s, f) == 0 <==> forall i :: 0 <= i < |s| ==> f(s[i]) == 0
  {
    if s != [] {
      SumZero(s[1..], f);
      assert forall i :: 0 < i < |s| ==> s[i] == s[1..][i - 1];
      assert forall i :: 0 <= i < |s[1..]| ==> s[1..][i] == s[i + 1];
    }
  }

  /** Elements that weigh at most one in total at most count themselves. */
  lemma {:induction false} SumBound<T>(s: seq<T>, f: T -> nat)
    requires forall i :: 0 <= i < |s| ==> f(s[i]) <= 1
    ensures Sum(s, f) <= |s|
  {
    if s != [] {
      SumBound(s[1..], f);
    }
  }

  function Collect<T, U>(s: seq<T>, f: T -> multiset<U>): multiset<U>
  {
    if s == [] then multiset{} else f(s[0]) + Collect(s[1..], f)
  }

  lemma {:induction false} CollectUpdate<T, U>(s: seq<T>, i: nat, x: T, f: T -> multiset<U>)
    requires i < |s|
    ensures Collect(s[i := x], f) + f(s[i]) == Collect(s, f) + f(x)
  {
    if i == 0 {
      assert s[i := x][1..] == s[1..];
    } else {
      var rest, rest' := s[1..], s[1..][i - 1 := x];
      assert s[i := x][1..] == rest';
      CollectUpdate(rest, i - 1, x, f);
      assert Collect(s[i := x], f) + f(s[i]) == f(s[0]) + (Collect(rest', f) + f(s[i]));
      assert Collect(s, f) + f(x) == f(s[0]) + (Collect(rest, f) + f(x));
    }
  }

  lemma CollectSame<T, U>(s: seq<T>, i: nat, x: T, f: T -> multiset<U>)
    requires i < |s| && f(x) == f(s[i])
    ensures Collect(s[i := x], f) == Collect(s, f)
  {
    CollectUpdate(s, i, x, f);
    assert (Collect(s[i := x], f) + f(x)) - f(x) == Collect(s[i := x], f);
    assert (Collect(s, f) + f(x)) - f(x) == Collect(s, f);
  }

  /** An element that held something now holds nothing. */
  lemma CollectLoss<T, U>(s: seq<T>, i: nat, x: T, f: T -> multiset<U>)
    requires i < |s| && f(x) == multiset{}
    ensures Collect(s[i := x], f) + f(s[i]) == Collect(s, f)
  {
    CollectUpdate(s, i, x, f);
    assert Collect(s, f) + multiset{} == Collect(s, f);
  }

  /** An element that held nothing now holds f(x). */
  lemma CollectGain<T, U>(s: seq<T>, i: nat, x: T, f: T -> multiset<U>)
    requires i < |s| && f(s[i]) == multiset{}
    ensures Collect(s[i := x], f) == Collect(s, f) + f(x)
  {
    CollectUpdate(s, i, x, f);
    assert Collect(s[i := x], f) + multiset{} == Collect(s[i := x], f);
  }

  lemma {:induction false} CollectAppend<T, U>(s: seq<T>, x: T, f: T -> multiset<U>)
    ensures Collect(s + [x], f) == Collect(s, f) + f(x)
  {
    if s == [] {
      assert s + [x] == [x];
    } else {
      assert (s + [x])[1..] == s[1..] + [x];
      CollectAppend(s[1..], x, f);
    }
  }

  lemma {:induction false} CollectEmpty<T, U>(s: seq<T>, f: T -> multiset<U>)
    requires forall i :: 0 <= i < |s| ==> f(s[i]) == multiset{}
    ensures Collect(s, f) == multiset{}
  {
    if s != [] {
      CollectEmpty(s[1..], f);
    }
  }
}
