// Small things every module may need: optional values, sequences without repeats, and the pigeonhole.
module Common {

  datatype Option<+T> = None | Some(value: T)

  predicate NoRepeats<T(==)>(s: seq<T>) { forall i, j :: 0 <= i < j < |s| ==> s[i] != s[j] }

  lemma Associate<T>(a: seq<T>, b: seq<T>, c: seq<T>)
    ensures a + (b + c) == (a + b) + c
  {
  }

  // More numbers below n than n: two of them are equal.
  lemma {:induction false} Pigeonhole(s: seq<nat>, n: nat) returns (i: nat, j: nat)
    requires |s| > n && forall k :: 0 <= k < |s| ==> s[k] < n
    ensures i < j < |s| && s[i] == s[j]
    decreases n
  {
    assert s[0] < n;
    if a: nat, b: nat :| a < b < |s| && s[a] == s[b] && s[a] == n - 1 {
      i, j := a, b;
    } else if a: nat :| a < |s| && s[a] == n - 1 {
      var rest := s[..a] + s[a + 1..];
      assert forall k :: 0 <= k < |rest| ==> rest[k] == s[if k < a then k else k + 1];
      var x, y := Pigeonhole(rest, n - 1);
      i, j := if x < a then x else x + 1, if y < a then y else y + 1;
    } else {
      i, j := Pigeonhole(s, n - 1);
    }
  }
}
