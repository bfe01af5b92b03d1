/** Object references as arena handles: sequences of handles without repeats, handles that
    point into an arena of a given size, and `List.indexOf`; and the one law of concatenation
    the proofs keep needing. */
module Handles {
  /** No handle occurs twice. */
  predicate Unique(s: seq<nat>) {
    forall i, j :: 0 <= i < j < |s| ==> s[i] != s[j]
  }

  /** Every handle is below `n`. */
  predicate Below(s: seq<nat>, n: nat) {
    forall i :: 0 <= i < |s| ==> s[i] < n
  }

  lemma BelowOfMembers(s: seq<nat>, n: nat)
    requires forall x :: x in s ==> x < n
    ensures Below(s, n)
  {
    forall i | 0 <= i < |s|
      ensures s[i] < n
    {
      assert s[i] in s;
    }
  }

  lemma BelowConcat(a: seq<nat>, b: seq<nat>, n: nat)
    requires Below(a, n) && Below(b, n)
    ensures Below(a + b, n)
  {
    forall i | 0 <= i < |a + b|
      ensures (a + b)[i] < n
    {
      if i >= |a| {
        assert (a + b)[i] == b[i - |a|];
      }
    }
  }

  /** Distinct handles below `n` are at most `n` many: what makes the walk stop on a cyclic story. */
  lemma {:induction false} Pigeonhole(s: seq<nat>, n: nat)
    requires Unique(s) && Below(s, n)
    ensures |s| <= n
    decreases |s|
  {
    if |s| > 0 {
      var x := s[|s| - 1];
      var front := s[..|s| - 1];
      assert forall i :: 0 <= i < |front| ==> front[i] != x;
      var shifted := seq(|front|, i requires 0 <= i < |front| => if front[i] > x then front[i] - 1 else front[i]);
      assert Unique(shifted) by {
        forall i, j | 0 <= i < j < |shifted|
          ensures shifted[i] != shifted[j]
        {
          assert front[i] != front[j];
        }
      }
      Pigeonhole(shifted, n - 1);
    }
  }

  /** `indexOf`: the position of the first occurrence. */
  function IndexOf(s: seq<nat>, x: nat): (i: nat)
    requires x in s
    ensures i < |s| && s[i] == x && x !in s[..i]
  {
    if s[0] == x then 0
    else
      assert s == [s[0]] + s[1..];
      var i := 1 + IndexOf(s[1..], x);
      assert s[..i] == [s[0]] + s[1..][..i - 1];
      i
  }

  lemma UniqueAppend(s: seq<nat>, x: nat)
    requires Unique(s) && x !in s
    ensures Unique(s + [x])
  {
  }

  lemma BelowTail(x: nat, rest: seq<nat>, n: nat)
    requires Below([x] + rest, n)
    ensures x < n && Below(rest, n)
  {
    assert ([x] + rest)[0] == x;
    forall i | 0 <= i < |rest|
      ensures rest[i] < n
    {
      assert rest[i] == ([x] + rest)[i + 1];
    }
  }

  lemma IndexOfUnique(s: seq<nat>, k: nat)
    requires Unique(s) && k < |s|
    ensures IndexOf(s, s[k]) == k
  {
    var i := IndexOf(s, s[k]);
    assert s[i] == s[k];
  }

  /** Concatenation regroups. */
  lemma Associative<T>(a: seq<T>, b: seq<T>, c: seq<T>)
    ensures a + b + c == a + (b + c)
  {
  }
}
