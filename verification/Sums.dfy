// Sums over the threads of a state: how many are waiting, what they hold, how far they still have to go.
module Sums {

  function Sum<T>(f: T -> nat, s: seq<T>): nat {
    if s == [] then 0 else f(s[0]) + Sum(f, s[1..])
  }

  lemma {:induction false} SumUpdate<T>(f: T -> nat, s: seq<T>, i: nat, x: T)
    requires i < |s|
    ensures Sum(f, s[i := x]) + f(s[i]) == Sum(f, s) + f(x)
  {
    if i == 0 {
      assert s[i := x][1..] == s[1..];
    } else {
      assert s[i := x][1..] == s[1..][i - 1 := x];
      SumUpdate(f, s[1..], i - 1, x);
    }
  }

  lemma {:induction false} SumZero<T>(f: T -> nat, s: seq<T>)
    ensures Sum(f, s) == 0 <==> forall i :: 0 <= i < |s| ==> f(s[i]) == 0
  {
    if s != [] {
      SumZero(f, s[1..]);
      assert forall i :: 0 < i < |s| ==> s[i] == s[1..][i - 1];
      if forall i :: 0 <= i < |s| ==> f(s[i]) == 0 {
        assert forall i :: 0 <= i < |s[1..]| ==> s[1..][i] == s[i + 1];
      }
    }
  }

  lemma {:induction false} SumAtMost<T>(f: T -> nat, s: seq<T>, k: nat)
    requires forall i :: 0 <= i < |s| ==> f(s[i]) <= k
    ensures Sum(f, s) <= |s| * k
  {
    if s != [] {
      SumAtMost(f, s[1..], k);
      assert |s| * k == k + (|s| - 1) * k;
    }
  }

  // All elements at the bound k.
  lemma {:induction false} SumConstant<T>(f: T -> nat, s: seq<T>, k: nat)
    requires forall i :: 0 <= i < |s| ==> f(s[i]) == k
    ensures Sum(f, s) == |s| * k
  {
    if s != [] {
      SumConstant(f, s[1..], k);
      assert |s| * k == k + (|s| - 1) * k;
    }
  }

  // A sum of ones and zeros that falls short of the length leaves some element at zero.
  lemma {:induction false} SomeZero<T>(f: T -> nat, s: seq<T>) returns (i: nat)
    requires Sum(f, s) < |s|
    ensures i < |s| && f(s[i]) == 0
  {
    if f(s[0]) == 0 {
      i := 0;
    } else {
      var j := SomeZero(f, s[1..]);
      i := j + 1;
    }
  }

  lemma {:induction false} SomePositive<T>(f: T -> nat, s: seq<T>) returns (i: nat)
    requires Sum(f, s) > 0
    ensures i < |s| && f(s[i]) > 0
  {
    if f(s[0]) > 0 {
      i := 0;
    } else {
      var j := SomePositive(f, s[1..]);
      i := j + 1;
    }
  }

  // Two measures that agree on every element have the same sum.
  lemma {:induction false} SumAgree<S, T>(f: S -> nat, g: T -> nat, s: seq<S>, t: seq<T>)
    requires |s| == |t| && forall i :: 0 <= i < |s| ==> f(s[i]) == g(t[i])
    ensures Sum(f, s) == Sum(g, t)
  {
    if s != [] {
      SumAgree(f, g, s[1..], t[1..]);
    }
  }

  // A map of the elements that never raises a measure does not raise its sum.
  lemma {:induction false} SumLowered<T>(f: T -> nat, s: seq<T>, t: seq<T>)
    requires |s| == |t| && forall i :: 0 <= i < |s| ==> f(t[i]) <= f(s[i])
    ensures Sum(f, t) <= Sum(f, s)
  {
    if s != [] {
      SumLowered(f, s[1..], t[1..]);
    }
  }
}
