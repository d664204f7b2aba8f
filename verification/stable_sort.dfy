/**
 * `Array.prototype.sort` with a comparator, which the widgets use to rank
 * contrast scores and leaderboard entries. The ECMAScript standard requires
 * the sort to be stable, so for a comparator that is a strict weak order the
 * result is determined: sorted, and elements the comparator cannot tell apart
 * stay in their input order. The model is a stable insertion sort.
 *
 * `ahead(a, b)` holds when the comparator puts `a` strictly before `b`.
 */
module StableSort {
  import opened Seqs

  ghost predicate StrictWeakOrder<T(!new)>(ahead: (T, T) -> bool) {
    && (forall a :: !ahead(a, a))
    && (forall a, b, c :: ahead(a, b) && ahead(b, c) ==> ahead(a, c))
    && (forall a, b, c :: !ahead(a, b) && !ahead(b, c) ==> !ahead(a, c))
  }

  /** No element is strictly ahead of an element before it. */
  ghost predicate Sorted<T>(s: seq<T>, ahead: (T, T) -> bool) {
    forall i, j :: 0 <= i < j < |s| ==> !ahead(s[j], s[i])
  }

  /** Neither is ahead of the other: the comparator returns 0. */
  predicate Tied<T>(ahead: (T, T) -> bool, a: T, b: T) {
    !ahead(a, b) && !ahead(b, a)
  }

  function TiedWith<T>(ahead: (T, T) -> bool, v: T): T -> bool {
    y => Tied(ahead, y, v)
  }

  /** How many elements of `s` rank strictly ahead of `x`. */
  function CountAhead<T>(s: seq<T>, ahead: (T, T) -> bool, x: T): nat {
    if |s| == 0 then 0 else (if ahead(s[0], x) then 1 else 0) + CountAhead(s[1..], ahead, x)
  }

  /** Puts `x` after every element ranked strictly ahead of it and before the rest. */
  function Insert<T(!new)>(x: T, s: seq<T>, ahead: (T, T) -> bool): (r: seq<T>)
    ensures |r| == |s| + 1
    ensures multiset(r) == multiset(s) + multiset{x}
  {
    if |s| == 0 || !ahead(s[0], x) then [x] + s
    else
      assert s == [s[0]] + s[1..];
      [s[0]] + Insert(x, s[1..], ahead)
  }

  function Sort<T(!new)>(s: seq<T>, ahead: (T, T) -> bool): (r: seq<T>)
    ensures multiset(r) == multiset(s)
    ensures |r| == |s|
  {
    if |s| == 0 then []
    else
      assert s == [s[0]] + s[1..];
      Insert(s[0], Sort(s[1..], ahead), ahead)
  }

  lemma {:induction false} InsertSorted<T(!new)>(x: T, s: seq<T>, ahead: (T, T) -> bool)
    requires StrictWeakOrder(ahead) && Sorted(s, ahead)
    ensures Sorted(Insert(x, s, ahead), ahead)
    decreases |s|
  {
    if |s| > 0 && ahead(s[0], x) {
      var rest := Insert(x, s[1..], ahead);
      InsertSorted(x, s[1..], ahead);
      var r := [s[0]] + rest;
      forall j | 0 < j < |r| ensures !ahead(r[j], s[0]) {
        assert r[j] in multiset(rest);
        assert r[j] == x || r[j] in s[1..];
      }
    } else if |s| > 0 {
      var r := [x] + s;
      forall j | 0 < j < |r| ensures !ahead(r[j], x) {
        if j > 1 {
          assert !ahead(s[j - 1], s[0]);
        }
      }
    }
  }

  /** The result is ordered by the comparator. */
  lemma {:induction false} SortSorted<T(!new)>(s: seq<T>, ahead: (T, T) -> bool)
    requires StrictWeakOrder(ahead)
    ensures Sorted(Sort(s, ahead), ahead)
    decreases |s|
  {
    if |s| > 0 {
      SortSorted(s[1..], ahead);
      InsertSorted(s[0], Sort(s[1..], ahead), ahead);
    }
  }

  /** Tied with the same value is an equivalence (from the strict weak order). */
  lemma TiedTransitive<T(!new)>(ahead: (T, T) -> bool, a: T, b: T, c: T)
    requires StrictWeakOrder(ahead)
    requires Tied(ahead, a, b) && Tied(ahead, b, c)
    ensures Tied(ahead, a, c)
  {
  }

  lemma {:induction false} InsertTies<T(!new)>(x: T, s: seq<T>, ahead: (T, T) -> bool, v: T)
    requires StrictWeakOrder(ahead) && Sorted(s, ahead)
    ensures Tied(ahead, x, v) ==> Filter(Insert(x, s, ahead), TiedWith(ahead, v)) == [x] + Filter(s, TiedWith(ahead, v))
    ensures !Tied(ahead, x, v) ==> Filter(Insert(x, s, ahead), TiedWith(ahead, v)) == Filter(s, TiedWith(ahead, v))
    decreases |s|
  {
    var tv := TiedWith(ahead, v);
    if |s| == 0 || !ahead(s[0], x) {
      assert ([x] + s)[1..] == s;
    } else {
      assert Sorted(s[1..], ahead);
      InsertTies(x, s[1..], ahead, v);
      assert Insert(x, s, ahead)[1..] == Insert(x, s[1..], ahead);
      if Tied(ahead, x, v) {
        // s[0] is strictly ahead of x, hence not tied with v
        assert !Tied(ahead, s[0], v);
      }
    }
  }

  /**
   * Stability: the elements tied with any `v` appear in the result in exactly
   * the order they had in the input.
   */
  lemma {:induction false} SortStable<T(!new)>(s: seq<T>, ahead: (T, T) -> bool, v: T)
    requires StrictWeakOrder(ahead)
    ensures Filter(Sort(s, ahead), TiedWith(ahead, v)) == Filter(s, TiedWith(ahead, v))
    decreases |s|
  {
    if |s| > 0 {
      SortStable(s[1..], ahead, v);
      SortSorted(s[1..], ahead);
      InsertTies(s[0], Sort(s[1..], ahead), ahead, v);
    }
  }

  lemma {:induction false} CountAheadInsert<T(!new)>(y: T, s: seq<T>, ahead: (T, T) -> bool, x: T)
    ensures CountAhead(Insert(y, s, ahead), ahead, x) == CountAhead(s, ahead, x) + (if ahead(y, x) then 1 else 0)
    decreases |s|
  {
    if |s| > 0 && ahead(s[0], y) {
      CountAheadInsert(y, s[1..], ahead, x);
      assert Insert(y, s, ahead)[1..] == Insert(y, s[1..], ahead);
    } else {
      assert ([y] + s)[1..] == s;
    }
  }

  /** Sorting does not change how many elements rank ahead of `x`. */
  lemma {:induction false} CountAheadSort<T(!new)>(s: seq<T>, ahead: (T, T) -> bool, x: T)
    ensures CountAhead(Sort(s, ahead), ahead, x) == CountAhead(s, ahead, x)
    decreases |s|
  {
    if |s| > 0 {
      CountAheadSort(s[1..], ahead, x);
      CountAheadInsert(s[0], Sort(s[1..], ahead), ahead, x);
    }
  }

  /** `x` sits at index `k` of `r`, behind exactly the elements strictly ahead of it. */
  ghost predicate PlacedAt<T>(r: seq<T>, x: T, k: nat, ahead: (T, T) -> bool) {
    && k < |r| && r[k] == x
    && (forall i :: 0 <= i < k ==> ahead(r[i], x))
    && (forall i :: k < i < |r| ==> !ahead(r[i], x))
  }

  /**
   * Inserting into a sorted list: `x` lands at index `CountAhead(s, x)`, every
   * element before it is strictly ahead of it, and none after it is.
   */
  lemma {:induction false} InsertPosition<T(!new)>(x: T, s: seq<T>, ahead: (T, T) -> bool)
    requires StrictWeakOrder(ahead) && Sorted(s, ahead)
    ensures PlacedAt(Insert(x, s, ahead), x, CountAhead(s, ahead, x), ahead)
    decreases |s|
  {
    if |s| == 0 {
      assert Insert(x, s, ahead) == [x];
    } else if !ahead(s[0], x) {
      FilterNoneAhead(s, ahead, x);
    } else {
      assert Sorted(s[1..], ahead);
      InsertPosition(x, s[1..], ahead);
      InsertBehindHead(x, s, ahead);
    }
  }

  lemma InsertBehindHead<T(!new)>(x: T, s: seq<T>, ahead: (T, T) -> bool)
    requires |s| > 0 && ahead(s[0], x)
    requires PlacedAt(Insert(x, s[1..], ahead), x, CountAhead(s[1..], ahead, x), ahead)
    ensures PlacedAt(Insert(x, s, ahead), x, CountAhead(s, ahead, x), ahead)
  {
    var tail := Insert(x, s[1..], ahead);
    var r := [s[0]] + tail;
    assert Insert(x, s, ahead) == r;
    var k' := CountAhead(s[1..], ahead, x);
    assert CountAhead(s, ahead, x) == k' + 1;
    forall i | 0 <= i < k' + 1 ensures ahead(r[i], x) {
      if i > 0 { assert r[i] == tail[i - 1]; }
    }
    forall i | k' + 1 < i < |r| ensures !ahead(r[i], x) {
      assert r[i] == tail[i - 1];
    }
  }

  /** In a sorted list whose head is not ahead of `x`, nothing is. */
  lemma FilterNoneAhead<T(!new)>(s: seq<T>, ahead: (T, T) -> bool, x: T)
    requires StrictWeakOrder(ahead) && Sorted(s, ahead)
    requires |s| > 0 && !ahead(s[0], x)
    ensures CountAhead(s, ahead, x) == 0
    ensures forall i :: 0 <= i < |s| ==> !ahead(s[i], x)
  {
    forall i | 0 <= i < |s| ensures !ahead(s[i], x) {
      if i > 0 { assert !ahead(s[i], s[0]); }
    }
    CountNoneAhead(s, ahead, x);
  }

  lemma {:induction false} CountNoneAhead<T>(s: seq<T>, ahead: (T, T) -> bool, x: T)
    requires forall i :: 0 <= i < |s| ==> !ahead(s[i], x)
    ensures CountAhead(s, ahead, x) == 0
    decreases |s|
  {
    if |s| > 0 {
      CountNoneAhead(s[1..], ahead, x);
    }
  }

  /**
   * Sorting `[x] + s`, with `x` first in the input as the new leaderboard
   * entry is: `x` ends up at index `CountAhead(s, x)`, behind exactly the
   * elements of `s` ranked strictly ahead of it.
   */
  lemma RankOfFirst<T(!new)>(x: T, s: seq<T>, ahead: (T, T) -> bool)
    requires StrictWeakOrder(ahead)
    ensures PlacedAt(Sort([x] + s, ahead), x, CountAhead(s, ahead, x), ahead)
  {
    assert ([x] + s)[0] == x && ([x] + s)[1..] == s;
    SortSorted(s, ahead);
    InsertPosition(x, Sort(s, ahead), ahead);
    CountAheadSort(s, ahead, x);
  }
}
