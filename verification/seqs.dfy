/**
 * The list operations the widgets build from JavaScript array methods:
 * `filter`, `Array.from(new Set(...))`, and the order-preserving deletion
 * they both perform.
 */
module Seqs {

  predicate NoDuplicates<T(==)>(s: seq<T>) {
    forall i, j :: 0 <= i < j < |s| ==> s[i] != s[j]
  }

  /** `a` is `b` with some elements deleted, the rest in their original order. */
  predicate IsSubsequence<T(==)>(a: seq<T>, b: seq<T>)
    decreases |b|
  {
    if |a| == 0 then true
    else if |b| == 0 then false
    else if a[0] == b[0] then IsSubsequence(a[1..], b[1..])
    else IsSubsequence(a, b[1..])
  }

  lemma {:induction false} SubsequenceRefl<T(!new)>(s: seq<T>)
    ensures IsSubsequence(s, s)
    decreases |s|
  {
    if |s| > 0 {
      SubsequenceRefl(s[1..]);
    }
  }

  /** `s.filter(keep)`: the elements that pass `keep`, each kept as often as it occurs. */
  function Filter<T(!new)>(s: seq<T>, keep: T -> bool): (r: seq<T>)
    ensures |r| <= |s|
    ensures forall y :: y in r <==> y in s && keep(y)
    ensures forall y :: multiset(r)[y] == if keep(y) then multiset(s)[y] else 0
  {
    if |s| == 0 then []
    else
      var rest := Filter(s[1..], keep);
      assert s == [s[0]] + s[1..];
      assert multiset(s) == multiset{s[0]} + multiset(s[1..]);
      if keep(s[0]) then [s[0]] + rest else rest
  }

  /** One step of `Filter`: the first element, if kept, then the filtered rest. */
  lemma FilterCons<T(!new)>(s: seq<T>, keep: T -> bool)
    requires |s| > 0
    ensures Filter(s, keep) == (if keep(s[0]) then [s[0]] else []) + Filter(s[1..], keep)
  {
  }

  /** Slicing a list at `n + 1` is slicing its tail at `n`. */
  lemma SliceCons<T>(s: seq<T>, n: nat)
    requires n < |s|
    ensures s[..n + 1] == [s[0]] + s[1..][..n]
    ensures s[n + 1..] == s[1..][n..]
  {
  }

  /** A property every element of a list has, every element of a filtered list has. */
  lemma {:induction false} FilterAll<T(!new)>(s: seq<T>, keep: T -> bool, p: T -> bool)
    requires forall i :: 0 <= i < |s| ==> p(s[i])
    ensures forall i :: 0 <= i < |Filter(s, keep)| ==> p(Filter(s, keep)[i])
    decreases |s|
  {
    if |s| > 0 {
      FilterAll(s[1..], keep, p);
      FilterCons(s, keep);
    }
  }

  /** Filtering deletes and never reorders. */
  lemma {:induction false} FilterIsSubsequence<T(!new)>(s: seq<T>, keep: T -> bool)
    ensures IsSubsequence(Filter(s, keep), s)
    decreases |s|
  {
    if |s| > 0 {
      FilterIsSubsequence(s[1..], keep);
    }
  }

  /** Prepending an element to the larger sequence keeps a subsequence a subsequence. */
  lemma {:induction false} SubsequenceSkip<T(!new)>(a: seq<T>, b: seq<T>, x: T)
    requires IsSubsequence(a, b)
    ensures IsSubsequence(a, [x] + b)
    decreases |b|, 1
  {
    if |a| > 0 && a[0] == x {
      assert ([x] + b)[1..] == b;
      SubsequenceDropHead(a, b);
    } else if |a| > 0 {
      assert ([x] + b)[1..] == b;
    }
  }

  lemma {:induction false} SubsequenceDropHead<T(!new)>(a: seq<T>, b: seq<T>)
    requires |a| > 0 && IsSubsequence(a, b)
    ensures IsSubsequence(a[1..], b)
    decreases |b|, 0
  {
    if a[0] == b[0] {
      SubsequenceSkip(a[1..], b[1..], b[0]);
      assert [b[0]] + b[1..] == b;
    } else {
      SubsequenceDropHead(a, b[1..]);
      SubsequenceSkip(a[1..], b[1..], b[0]);
      assert [b[0]] + b[1..] == b;
    }
  }

  lemma {:induction false} FilterAppend<T(!new)>(a: seq<T>, b: seq<T>, keep: T -> bool)
    ensures Filter(a + b, keep) == Filter(a, keep) + Filter(b, keep)
    decreases |a|
  {
    if |a| == 0 {
      assert a + b == b;
    } else {
      assert (a + b)[1..] == a[1..] + b;
      FilterAppend(a[1..], b, keep);
    }
  }

  /** Filtering a list whose every element passes returns it unchanged. */
  lemma {:induction false} FilterKeepsAll<T(!new)>(s: seq<T>, keep: T -> bool)
    requires forall i :: 0 <= i < |s| ==> keep(s[i])
    ensures Filter(s, keep) == s
    decreases |s|
  {
    if |s| > 0 {
      FilterKeepsAll(s[1..], keep);
    }
  }

  lemma {:induction false} FilterPreservesNoDuplicates<T(!new)>(s: seq<T>, keep: T -> bool)
    requires NoDuplicates(s)
    ensures NoDuplicates(Filter(s, keep))
    decreases |s|
  {
    if |s| > 0 {
      FilterPreservesNoDuplicates(s[1..], keep);
      assert s[0] !in s[1..];
    }
  }

  /** The predicate `y != x`, as a value to hand to `Filter`. */
  function Differs<T(==)>(x: T): T -> bool {
    y => y != x
  }

  /** `Array.from(new Set(s))`: each distinct element once, in order of first occurrence. */
  function Dedup<T(==,!new)>(s: seq<T>): (r: seq<T>)
    ensures NoDuplicates(r)
    ensures forall x :: x in r <==> x in s
  {
    if |s| == 0 then []
    else
      var d := Dedup(s[..|s| - 1]);
      var x := s[|s| - 1];
      assert s == s[..|s| - 1] + [x];
      if x in d then d else d + [x]
  }

  /** A non-empty suffix splits into its front and its last element. */
  lemma AppendSnoc<T>(h: seq<T>, s: seq<T>)
    requires |s| > 0
    ensures h + s == (h + s[..|s| - 1]) + [s[|s| - 1]]
  {
    assert s == s[..|s| - 1] + [s[|s| - 1]];
  }

  /** One more element through `new Set`: dropped if already there, otherwise last. */
  lemma DedupSnoc<T(!new)>(s: seq<T>, x: T)
    ensures Dedup(s + [x]) == if x in Dedup(s) then Dedup(s) else Dedup(s) + [x]
  {
    assert (s + [x])[..|s + [x]| - 1] == s;
  }

  /** A list that already has no duplicates passes through `new Set` unchanged. */
  lemma {:induction false} DedupOfDistinct<T(!new)>(s: seq<T>)
    requires NoDuplicates(s)
    ensures Dedup(s) == s
    decreases |s|
  {
    if |s| > 0 {
      DedupOfDistinct(s[..|s| - 1]);
    }
  }

  /**
   * Adding `x` to a duplicate-free list through `new Set`: the list itself when
   * `x` is already there, otherwise `x` goes at the end.
   */
  lemma DedupAppend<T(!new)>(s: seq<T>, x: T)
    requires NoDuplicates(s)
    ensures x in s ==> Dedup(s + [x]) == s
    ensures x !in s ==> Dedup(s + [x]) == s + [x]
  {
    DedupOfDistinct(s);
    assert (s + [x])[..|s|] == s;
  }
}
