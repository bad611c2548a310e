/** Python's `list.sort()` on lists of integers, as an insertion sort on values. */
module Sorting {

  predicate Sorted(s: seq<int>) {
    forall i, j :: 0 <= i < j < |s| ==> s[i] <= s[j]
  }

  /** Puts `x` in front of the first element of `s` that is not smaller. */
  function Insert(x: int, s: seq<int>): (r: seq<int>)
    ensures multiset(r) == multiset(s) + multiset{x}
  {
    if s == [] || x <= s[0] then [x] + s
    else
      assert s == [s[0]] + s[1..];
      [s[0]] + Insert(x, s[1..])
  }

  lemma {:induction false} InsertSorted(x: int, s: seq<int>)
    requires Sorted(s)
    ensures Sorted(Insert(x, s))
  {
    if s != [] && x > s[0] {
      InsertSorted(x, s[1..]);
      LowerBound(s[0], s[1..], x, Insert(x, s[1..]));
    }
  }

  /** Every element of `t`, a rearrangement of `s` plus `x`, is at least `b` when `s` and `x` are. */
  lemma LowerBound(b: int, s: seq<int>, x: int, t: seq<int>)
    requires forall i :: 0 <= i < |s| ==> b <= s[i]
    requires b <= x
    requires multiset(t) == multiset(s) + multiset{x}
    ensures forall k :: 0 <= k < |t| ==> b <= t[k]
  {
    forall k | 0 <= k < |t| ensures b <= t[k] {
      assert t[k] in multiset(t);
      if t[k] != x {
        assert t[k] in multiset(s);
        var i :| 0 <= i < |s| && s[i] == t[k];
      }
    }
  }

  /** The ascending rearrangement of `s`. */
  function Sort(s: seq<int>): (r: seq<int>)
    ensures Sorted(r)
    ensures multiset(r) == multiset(s)
  {
    if s == [] then []
    else
      assert s == [s[0]] + s[1..];
      InsertSorted(s[0], Sort(s[1..]));
      Insert(s[0], Sort(s[1..]))
  }

  /** A list that is already ascending is left as it is. */
  lemma {:induction false} SortKeepsSorted(s: seq<int>)
    requires Sorted(s)
    ensures Sort(s) == s
  {
    if s != [] {
      SortKeepsSorted(s[1..]);
      assert s == [s[0]] + s[1..];
    }
  }

  /** Sorting twice gives what sorting once gives. */
  lemma SortIdempotent(s: seq<int>)
    ensures Sort(Sort(s)) == Sort(s)
  {
    SortKeepsSorted(Sort(s));
  }
}
