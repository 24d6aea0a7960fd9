/** `Array.prototype.filter`, with the facts the pages rely on: the kept
    elements are exactly the ones satisfying the test, in their original
    order, and a test and its negation split a list in two. */
module Selection {
  import Counting

  /** `s.filter(p)`. */
  function Filter<T>(s: seq<T>, p: T -> bool): (r: seq<T>)
    ensures |r| <= |s|
    ensures forall k :: 0 <= k < |r| ==> p(r[k])
  {
    if s == [] then []
    else Filter(s[..|s| - 1], p) + (if p(s[|s| - 1]) then [s[|s| - 1]] else [])
  }

  /** The positions of the elements satisfying `p`, in increasing order. */
  function Where<T>(s: seq<T>, p: T -> bool): (pos: seq<int>)
    ensures Counting.StrictlyIncreasing(pos)
    ensures forall k :: 0 <= k < |pos| ==> 0 <= pos[k] < |s| && p(s[pos[k]])
    ensures forall i :: 0 <= i < |s| && p(s[i]) ==> i in pos
  {
    if s == [] then []
    else
      var init := Where(s[..|s| - 1], p);
      assert forall k :: 0 <= k < |init| ==> s[init[k]] == s[..|s| - 1][init[k]];
      init + (if p(s[|s| - 1]) then [|s| - 1] else [])
  }

  /** The filtered list is the original list read at the selected
      positions: nothing reordered, nothing invented, nothing dropped
      that passes the test. */
  lemma {:induction false} FilterIsSelection<T>(s: seq<T>, p: T -> bool)
    ensures |Filter(s, p)| == |Where(s, p)|
    ensures forall k :: 0 <= k < |Filter(s, p)| ==> Filter(s, p)[k] == s[Where(s, p)[k]]
  {
    if s != [] {
      var init := s[..|s| - 1];
      FilterIsSelection(init, p);
      assert forall k :: 0 <= k < |Where(init, p)| ==> s[Where(init, p)[k]] == init[Where(init, p)[k]];
    }
  }

  /** A test and its negation split the list: every element lands in
      exactly one of the two parts. */
  lemma {:induction false} FilterPartition<T>(s: seq<T>, p: T -> bool, q: T -> bool)
    requires forall x :: q(x) == !p(x)
    ensures |Filter(s, p)| + |Filter(s, q)| == |s|
    ensures multiset(Filter(s, p)) + multiset(Filter(s, q)) == multiset(s)
  {
    if s != [] {
      var init := s[..|s| - 1];
      var x := s[|s| - 1];
      FilterPartition(init, p, q);
      assert s == init + [x];
      if p(x) {
        assert Filter(s, p) == Filter(init, p) + [x];
        assert Filter(s, q) == Filter(init, q);
      } else {
        assert Filter(s, p) == Filter(init, p);
        assert Filter(s, q) == Filter(init, q) + [x];
      }
    }
  }

  /** Filtering with a test every element passes keeps the whole list. */
  lemma {:induction false} FilterKeepsAll<T>(s: seq<T>, p: T -> bool)
    requires forall i :: 0 <= i < |s| ==> p(s[i])
    ensures Filter(s, p) == s
  {
    if s != [] {
      FilterKeepsAll(s[..|s| - 1], p);
      assert s == s[..|s| - 1] + [s[|s| - 1]];
    }
  }

  /** Filtering with a test no element passes keeps nothing. */
  lemma {:induction false} FilterKeepsNone<T>(s: seq<T>, p: T -> bool)
    requires forall i :: 0 <= i < |s| ==> !p(s[i])
    ensures Filter(s, p) == []
  {
    if s != [] {
      FilterKeepsNone(s[..|s| - 1], p);
    }
  }
}
