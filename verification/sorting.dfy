/** Ordering predicates on integer lists and the in-place sort of Processing's
    `IntList.sort()`, modelled as a functional insertion sort. */
module Sorting {

  predicate Sorted(s: seq<int>)
  {
    forall i, j :: 0 <= i < j < |s| ==> s[i] <= s[j]
  }

  predicate StrictlyIncreasing(s: seq<int>)
  {
    forall i, j :: 0 <= i < j < |s| ==> s[i] < s[j]
  }

  predicate NoDuplicates(s: seq<int>)
  {
    forall i, j :: 0 <= i < j < |s| ==> s[i] != s[j]
  }

  /** Places x in front of the first element of s that is not smaller. */
  function Insert(x: int, s: seq<int>): (r: seq<int>)
    ensures multiset(r) == multiset(s) + multiset{x}
    ensures |r| == |s| + 1
    ensures forall i :: 0 <= i < |r| ==> r[i] == x || r[i] in s
  {
    if |s| == 0 then [x]
    else if x <= s[0] then [x] + s
    else
      assert s == [s[0]] + s[1..];
      [s[0]] + Insert(x, s[1..])
  }

  lemma InsertSorted(x: int, s: seq<int>)
    requires Sorted(s)
    ensures Sorted(Insert(x, s))
  {
    if |s| > 0 && x > s[0] {
      InsertSorted(x, s[1..]);
    }
  }

  lemma InsertStrict(x: int, s: seq<int>)
    requires StrictlyIncreasing(s) && x !in s
    ensures StrictlyIncreasing(Insert(x, s))
  {
    if |s| > 0 && x > s[0] {
      InsertStrict(x, s[1..]);
    }
  }

  /** `IntList.sort()`: a sorted permutation; a list without repeats comes out
      strictly ascending. */
  function Sort(s: seq<int>): (r: seq<int>)
    ensures multiset(r) == multiset(s)
    ensures Sorted(r)
    ensures NoDuplicates(s) ==> StrictlyIncreasing(r)
  {
    if |s| == 0 then []
    else
      assert s == [s[0]] + s[1..];
      var rest := Sort(s[1..]);
      InsertSorted(s[0], rest);
      if NoDuplicates(s) then
        NoDuplicatesTail(s);
        assert s[0] !in multiset(s[1..]);
        assert s[0] !in rest by { assert multiset(rest) == multiset(s[1..]); }
        InsertStrict(s[0], rest);
        Insert(s[0], rest)
      else
        Insert(s[0], rest)
  }

  /** Without repeats, the head is not in the tail and the tail has none. */
  lemma NoDuplicatesTail(s: seq<int>)
    requires |s| > 0 && NoDuplicates(s)
    ensures NoDuplicates(s[1..]) && s[0] !in s[1..]
  {
    forall i, j | 0 <= i < j < |s| - 1
      ensures s[1..][i] != s[1..][j]
    {
      assert s[1..][i] == s[i + 1] && s[1..][j] == s[j + 1];
    }
  }

  /** The elements of a sort are the elements of its input. */
  lemma SortSameElements(s: seq<int>)
    ensures forall x :: x in Sort(s) <==> x in s
  {
    var r := Sort(s);
    forall x
      ensures x in r <==> x in s
    {
      assert x in r <==> x in multiset(r);
      assert x in s <==> x in multiset(s);
    }
  }
}
