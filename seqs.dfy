/**
 * Order-preserving sequence operations used across the model: filtering (list
 * comprehensions with an `if`, `Array.prototype.filter`) and de-duplication in
 * order of first appearance (the "append if not already in the list" loops).
 */
module Seqs {

  /** `xs` occurs in `ys` in the same order, possibly with gaps. */
  predicate IsSubsequence<T(==)>(xs: seq<T>, ys: seq<T>)
    decreases |ys|
  {
    if xs == [] then true
    else if ys == [] then false
    else if xs[0] == ys[0] then IsSubsequence(xs[1..], ys[1..])
    else IsSubsequence(xs, ys[1..])
  }

  /** The elements of `s` satisfying `keep`, in their original order. */
  function Filter<T>(keep: T -> bool, s: seq<T>): (r: seq<T>)
    ensures |r| <= |s|
    ensures forall k :: 0 <= k < |r| ==> keep(r[k])
    ensures forall k :: 0 <= k < |r| ==> r[k] in s
  {
    if s == [] then []
    else (if keep(s[0]) then [s[0]] else []) + Filter(keep, s[1..])
  }

  /** Filtering keeps exactly the occurrences that satisfy the test, and drops the rest. */
  lemma {:induction false} FilterCounts<T>(keep: T -> bool, s: seq<T>, x: T)
    ensures multiset(Filter(keep, s))[x] == if keep(x) then multiset(s)[x] else 0
  {
    if s != [] {
      FilterCounts(keep, s[1..], x);
      assert s == [s[0]] + s[1..];
    }
  }

  /** Filtering keeps the original order. */
  lemma {:induction false} FilterIsSubsequence<T>(keep: T -> bool, s: seq<T>)
    ensures IsSubsequence(Filter(keep, s), s)
  {
    if s != [] {
      FilterIsSubsequence(keep, s[1..]);
      if keep(s[0]) {
        assert Filter(keep, s)[1..] == Filter(keep, s[1..]);
      } else {
        assert Filter(keep, s) == Filter(keep, s[1..]);
        SubsequenceOfTail(Filter(keep, s), s);
      }
    }
  }

  lemma {:induction false} SubsequenceOfTail<T>(xs: seq<T>, ys: seq<T>)
    requires ys != [] && IsSubsequence(xs, ys[1..])
    ensures IsSubsequence(xs, ys)
    decreases |ys|, 0
  {
    if xs != [] && xs[0] == ys[0] {
      SubsequenceDropHead(xs, ys[1..]);
    }
  }

  lemma {:induction false} SubsequenceDropHead<T>(xs: seq<T>, ys: seq<T>)
    requires xs != [] && IsSubsequence(xs, ys)
    ensures IsSubsequence(xs[1..], ys)
    decreases |ys|, 1
  {
    if xs[1..] != [] && ys != [] {
      if xs[0] == ys[0] {
        SubsequenceOfTail(xs[1..], ys);
      } else {
        SubsequenceDropHead(xs, ys[1..]);
        SubsequenceOfTail(xs[1..], ys);
      }
    }
  }

  lemma AppendAssoc<T>(a: seq<T>, b: seq<T>, c: seq<T>)
    ensures a + (b + c) == (a + b) + c
  {
  }

  /** Filtering an appended element. */
  lemma FilterSnoc<T>(keep: T -> bool, s: seq<T>, x: T)
    ensures Filter(keep, s + [x]) == Filter(keep, s) + (if keep(x) then [x] else [])
  {
    if s != [] {
      assert (s + [x])[1..] == s[1..] + [x];
      FilterSnoc(keep, s[1..], x);
    } else {
      assert s + [x] == [x];
    }
  }

  /** Filtering distributes over concatenation. */
  lemma {:induction false} FilterAppend<T>(keep: T -> bool, a: seq<T>, b: seq<T>)
    ensures Filter(keep, a + b) == Filter(keep, a) + Filter(keep, b)
  {
    if a == [] {
      assert a + b == b;
    } else {
      assert (a + b)[1..] == a[1..] + b;
      FilterAppend(keep, a[1..], b);
    }
  }

  /** A sequence none of whose elements pass the test filters to nothing. */
  lemma {:induction false} FilterNone<T>(keep: T -> bool, s: seq<T>)
    requires forall k :: 0 <= k < |s| ==> !keep(s[k])
    ensures Filter(keep, s) == []
  {
    if s != [] {
      FilterNone(keep, s[1..]);
    }
  }

  predicate NoDuplicates<T(==)>(s: seq<T>) {
    forall i, j :: 0 <= i < j < |s| ==> s[i] != s[j]
  }

  /** The index of the first occurrence of `x` in `s`. */
  function FirstIndex<T(==)>(s: seq<T>, x: T): (r: nat)
    requires x in s
    ensures r < |s| && s[r] == x && x !in s[..r]
  {
    if s[0] == x then 0
    else
      var k := FirstIndex(s[1..], x);
      assert s[1..][..k] == s[1..k + 1];
      k + 1
  }

  /**
   * The distinct elements of `s` in order of first appearance: the reference
   * definition of the loops that append an item only when it is not yet listed.
   */
  function FirstOccurrences<T(==)>(s: seq<T>): seq<T>
  {
    if s == [] then []
    else
      var init := s[..|s| - 1];
      var last := s[|s| - 1];
      FirstOccurrences(init) + (if last in init then [] else [last])
  }

  /** The de-duplicated list holds each element of `s` once, and nothing else. */
  lemma {:induction false} FirstOccurrencesSpec<T>(s: seq<T>)
    ensures NoDuplicates(FirstOccurrences(s))
    ensures forall x :: x in FirstOccurrences(s) ==> x in s
    ensures forall x :: x in s ==> x in FirstOccurrences(s)
  {
    if s != [] {
      var init := s[..|s| - 1];
      FirstOccurrencesSpec(init);
      assert s == init + [s[|s| - 1]];
    }
  }

  /** Earlier positions in the de-duplicated list hold elements that first appear earlier. */
  lemma {:induction false} FirstOccurrencesOrder<T>(s: seq<T>, i: nat, j: nat)
    requires i < j < |FirstOccurrences(s)|
    ensures FirstOccurrences(s)[i] in s && FirstOccurrences(s)[j] in s
    ensures FirstIndex(s, FirstOccurrences(s)[i]) < FirstIndex(s, FirstOccurrences(s)[j])
  {
    FirstOccurrencesSpec(s);
    var init := s[..|s| - 1];
    var last := s[|s| - 1];
    var f := FirstOccurrences(init);
    FirstOccurrencesSpec(init);
    assert s == init + [last];
    if j < |f| {
      FirstOccurrencesOrder(init, i, j);
      FirstIndexOfPrefix(init, last, f[i]);
      FirstIndexOfPrefix(init, last, f[j]);
    } else {
      assert FirstOccurrences(s)[j] == last && last !in init;
      assert FirstOccurrences(s)[i] == f[i] && f[i] in f;
      assert f[i] in init;
      FirstIndexOfPrefix(init, last, f[i]);
      assert s[|init|] == last;
    }
  }

  lemma FirstIndexOfPrefix<T>(init: seq<T>, last: T, x: T)
    requires x in init
    ensures FirstIndex(init + [last], x) == FirstIndex(init, x)
  {
    var s := init + [last];
    var a := FirstIndex(s, x);
    var b := FirstIndex(init, x);
    assert s[b] == x;
  }

  /** Adding one more batch of items to a de-duplicated list. */
  lemma {:induction false} FirstOccurrencesSnoc<T>(s: seq<T>, x: T)
    ensures FirstOccurrences(s + [x]) == FirstOccurrences(s) + (if x in s then [] else [x])
  {
    assert (s + [x])[..|s|] == s;
  }

  /** An element that passes the test is kept. */
  lemma FilterKeeps<T>(keep: T -> bool, s: seq<T>, x: T)
    requires x in s && keep(x)
    ensures x in Filter(keep, s)
  {
    FilterCounts(keep, s, x);
    assert multiset(Filter(keep, s))[x] > 0;
  }

  /** When exactly the elements at `i` and `j` pass the test, filtering keeps those two. */
  lemma {:induction false} FilterExactlyTwo<T>(keep: T -> bool, s: seq<T>, i: nat, j: nat)
    requires i < j < |s| && keep(s[i]) && keep(s[j])
    requires forall k :: 0 <= k < |s| && k != i && k != j ==> !keep(s[k])
    ensures Filter(keep, s) == [s[i], s[j]]
  {
    var t := s[1..];
    assert forall k :: 0 <= k < |t| ==> t[k] == s[k + 1];
    if i > 0 {
      assert !keep(s[0]);
      FilterExactlyTwo(keep, t, i - 1, j - 1);
    } else {
      FilterExactlyOne(keep, t, j - 1);
    }
  }

  /** When exactly the element at `j` passes the test, filtering keeps it alone. */
  lemma {:induction false} FilterExactlyOne<T>(keep: T -> bool, s: seq<T>, j: nat)
    requires j < |s| && keep(s[j])
    requires forall k :: 0 <= k < |s| && k != j ==> !keep(s[k])
    ensures Filter(keep, s) == [s[j]]
  {
    var t := s[1..];
    assert forall k :: 0 <= k < |t| ==> t[k] == s[k + 1];
    if j > 0 {
      assert !keep(s[0]);
      FilterExactlyOne(keep, t, j - 1);
    } else {
      FilterNone(keep, t);
    }
  }

  /** Two tests that agree on every element filter alike. */
  lemma {:induction false} FilterExt<T>(f: T -> bool, g: T -> bool, s: seq<T>)
    requires forall k :: 0 <= k < |s| ==> f(s[k]) == g(s[k])
    ensures Filter(f, s) == Filter(g, s)
  {
    if s != [] {
      FilterExt(f, g, s[1..]);
    }
  }
}
