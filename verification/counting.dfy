/** Pigeonhole facts about sequences of integers, used where the source
    relies on "n distinct values below n cover every value below n": the
    shuffled matching definitions and the answer-ledger completion count. */
module Counting {

  predicate Distinct(s: seq<int>) {
    forall i, j :: 0 <= i < j < |s| ==> s[i] != s[j]
  }

  function Values(s: seq<int>): set<int> {
    set i | 0 <= i < |s| :: s[i]
  }

  predicate InBelow(i: int, n: nat) {
    0 <= i < n
  }

  function Below(n: nat): set<int> {
    set i | 0 <= i < n && InBelow(i, n)
  }

  lemma {:induction false} BelowCard(n: nat)
    ensures |Below(n)| == n
  {
    if n > 0 {
      BelowCard(n - 1);
      assert Below(n) == Below(n - 1) + {n - 1};
    }
  }

  lemma {:induction false} DistinctValuesCard(s: seq<int>)
    requires Distinct(s)
    ensures |Values(s)| == |s|
  {
    if |s| > 0 {
      var init := s[..|s| - 1];
      DistinctValuesCard(init);
      assert Values(s) == Values(init) + {s[|s| - 1]};
      assert s[|s| - 1] !in Values(init);
    }
  }

  /** n distinct values, all below n, take every value below n. */
  lemma DistinctBelowCoversRange(s: seq<int>, n: nat)
    requires |s| == n && Distinct(s)
    requires forall i :: 0 <= i < |s| ==> 0 <= s[i] < n
    ensures Values(s) == Below(n)
    ensures forall v :: 0 <= v < n ==> v in Values(s)
  {
    DistinctValuesCard(s);
    BelowCard(n);
    assert Values(s) <= Below(n);
    assert |Below(n) - Values(s)| == 0;
    assert forall v :: v in Below(n) <==> 0 <= v < n;
  }

  /** Conversely, fewer than n distinct values below n miss some value. */
  lemma DistinctShortMissesValue(s: seq<int>, n: nat)
    requires |s| < n && Distinct(s)
    requires forall i :: 0 <= i < |s| ==> 0 <= s[i] < n
    ensures exists v :: 0 <= v < n && v !in Values(s)
  {
    DistinctValuesCard(s);
    BelowCard(n);
    assert Values(s) <= Below(n);
    assert |Below(n) - Values(s)| > 0;
    var v :| v in Below(n) - Values(s);
  }

  /** Values with none missing below n and all below n: n distinct ones. */
  lemma CoveringDistinctHasLength(s: seq<int>, n: nat)
    requires Distinct(s)
    requires forall i :: 0 <= i < |s| ==> 0 <= s[i] < n
    requires forall v :: 0 <= v < n ==> v in Values(s)
    ensures |s| == n
  {
    DistinctValuesCard(s);
    BelowCard(n);
    assert Values(s) == Below(n);
  }

  /** Distinct values below n are at most n many. */
  lemma DistinctBelowBound(s: seq<int>, n: nat)
    requires Distinct(s)
    requires forall i :: 0 <= i < |s| ==> 0 <= s[i] < n
    ensures |s| <= n
  {
    DistinctValuesCard(s);
    BelowCard(n);
    assert Values(s) <= Below(n);
    assert Below(n) == Values(s) + (Below(n) - Values(s));
    assert Values(s) * (Below(n) - Values(s)) == {};
  }

  predicate StrictlyIncreasing(s: seq<int>) {
    forall i, j :: 0 <= i < j < |s| ==> s[i] < s[j]
  }

  lemma {:induction false} IncreasingLowerBound(s: seq<int>, i: nat)
    requires StrictlyIncreasing(s) && i < |s|
    requires forall k :: 0 <= k < |s| ==> 0 <= s[k]
    ensures s[i] >= i
  {
    if i > 0 {
      IncreasingLowerBound(s, i - 1);
    }
  }

  lemma {:induction false} IncreasingUpperBound(s: seq<int>, i: nat)
    requires StrictlyIncreasing(s) && i < |s|
    requires forall k :: 0 <= k < |s| ==> s[k] < |s|
    ensures s[i] <= i
    decreases |s| - i
  {
    if i < |s| - 1 {
      IncreasingUpperBound(s, i + 1);
    }
  }

  /** A strictly increasing sequence of n values in [0, n) is 0, 1, ..., n-1. */
  lemma IncreasingFillsRange(s: seq<int>)
    requires StrictlyIncreasing(s)
    requires forall k :: 0 <= k < |s| ==> 0 <= s[k] < |s|
    ensures forall i :: 0 <= i < |s| ==> s[i] == i
  {
    forall i | 0 <= i < |s|
      ensures s[i] == i
    {
      IncreasingLowerBound(s, i);
      IncreasingUpperBound(s, i);
    }
  }
}
