/**
 * The accessibility report of the palette tool: every earlier test shade is
 * paired, as background, with every later one, as foreground; each pair gets
 * its contrast ratio and WCAG level; the pairs are ranked by ratio; the
 * ranking is split into passing and failing combinations. The tool also
 * exports the ramp as a shade-position to hex map.
 *
 * The colour helpers the tool imports (relative luminance, hex/HSL
 * conversion, shade generation) are not part of this model. They enter as
 * function parameters; the only thing assumed of the luminance helper is that
 * it never returns a negative number (`NonNegativeLuminance`).
 */
module Palette {
  import opened Common
  import opened Seqs
  import opened StableSort
  import opened Contrast

  /** One step of the generated ramp (`ColorShade`). */
  datatype Shade = Shade(position: int, hex: string, hue: real, saturation: real, lightness: real)

  /** One background/foreground pair of the report (`AccessibilityScore`). */
  datatype Score = Score(background: Shade, foreground: Shade, ratio: real, level: Level, pass: bool)

  /** The ramp positions the report evaluates, lightest first. */
  const TestShades: seq<int> := [50, 100, 200, 500, 700, 900]

  /** The stated assumption about the luminance helper. */
  ghost predicate NonNegativeLuminance(luminance: string -> real) {
    forall hex :: luminance(hex) >= 0.0
  }

  /** The index of the first occurrence of `x` in `s`, or `|s|` when there is none. */
  function IndexOf(s: seq<int>, x: int): (k: nat)
    ensures k <= |s|
    ensures k < |s| ==> s[k] == x
    ensures forall j :: 0 <= j < k ==> s[j] != x
  {
    if |s| == 0 then 0 else if s[0] == x then 0 else 1 + IndexOf(s[1..], x)
  }

  /** The index of a position in `TestShades`, or 6 for a position not tested. */
  function TestIndex(position: int): (k: nat)
    ensures k <= 6
    ensures k < 6 ==> TestShades[k] == position
  {
    IndexOf(TestShades, position)
  }

  /** Only the tested positions get an index below 6. */
  lemma TestIndexTested(position: int)
    ensures TestIndex(position) < 6 <==> position in TestShades
  {
  }

  lemma TestIndexOf(k: nat)
    requires k < 6
    ensures TestIndex(TestShades[k]) == k
  {
    var i := TestIndex(TestShades[k]);
    assert i <= k;
    assert i == 0 || i == 1 || i == 2 || i == 3 || i == 4 || i == 5;
  }

  /** `shades.find(s => s.shade === position)`: the first shade at that position. */
  function Find(shades: seq<Shade>, position: int): (r: Option<Shade>)
    ensures r.Some? ==> r.value in shades && r.value.position == position
  {
    if |shades| == 0 then None
    else if shades[0].position == position then Some(shades[0])
    else Find(shades[1..], position)
  }

  /** `find` comes back empty exactly when no shade is at the position. */
  lemma {:induction false} FindNone(shades: seq<Shade>, position: int)
    ensures Find(shades, position).None? <==> forall i :: 0 <= i < |shades| ==> shades[i].position != position
    decreases |shades|
  {
    if |shades| > 0 {
      FindNone(shades[1..], position);
      if shades[0].position != position {
        forall i | 0 <= i < |shades| && shades[i].position == position ensures i > 0 && shades[1..][i - 1].position == position { }
      }
    }
  }

  /** `find` returns the first shade at the position, not any later one. */
  lemma {:induction false} FindFirst(shades: seq<Shade>, position: int, i: nat)
    requires i < |shades| && shades[i].position == position
    requires forall j :: 0 <= j < i ==> shades[j].position != position
    ensures Find(shades, position) == Some(shades[i])
    decreases i
  {
    if i > 0 {
      FindFirst(shades[1..], position, i - 1);
    }
  }

  /** `getContrastRatio` on the hex codes of two shades. */
  function ShadeContrast(luminance: string -> real, background: Shade, foreground: Shade): (r: real)
    requires NonNegativeLuminance(luminance)
    ensures r >= 1.0
  {
    ContrastRatio(luminance(background.hex), luminance(foreground.hex))
  }

  /** The object the inner loop pushes: the pair, its ratio and its `getAccessibilityLevel`. */
  function MakeScore(luminance: string -> real, background: Shade, foreground: Shade): (sc: Score)
    requires NonNegativeLuminance(luminance)
    ensures sc.background == background && sc.foreground == foreground
    ensures sc.ratio >= 1.0
    ensures sc.pass <==> sc.ratio >= 3.0
  {
    var ratio := ShadeContrast(luminance, background, foreground);
    var a := Classify(ratio);
    Score(background, foreground, ratio, a.level, a.pass)
  }

  // ---------------------------------------------------------------------------
  // The nested loops: which background/foreground pairs the report holds

  /** The shades the two loops chose, before the ratio is computed. */
  datatype Pairing = Pairing(background: Shade, foreground: Shade)

  /**
   * A pair the loops can choose: both shades are the ones `find` returns for
   * two test positions, the background's strictly before the foreground's.
   */
  ghost predicate PairWellFormed(shades: seq<Shade>, p: Pairing) {
    && TestIndex(p.background.position) < TestIndex(p.foreground.position) < 6
    && Find(shades, p.background.position) == Some(p.background)
    && Find(shades, p.foreground.position) == Some(p.foreground)
  }

  ghost predicate AllPairsWellFormed(shades: seq<Shade>, ps: seq<Pairing>) {
    forall k :: 0 <= k < |ps| ==> PairWellFormed(shades, ps[k])
  }

  /**
   * The inner loop: the background at test index `bgIndex` against every test
   * position from `fgIndex` on that the ramp has.
   */
  function Row(shades: seq<Shade>, bg: Shade, bgIndex: nat, fgIndex: nat): seq<Pairing>
    requires bgIndex < fgIndex <= 6
    decreases 6 - fgIndex
  {
    if fgIndex == 6 then []
    else
      var rest := Row(shades, bg, bgIndex, fgIndex + 1);
      match Find(shades, TestShades[fgIndex])
      case None => rest
      case Some(fg) => [Pairing(bg, fg)] + rest
  }

  /** The outer loop over background test indices from `bgIndex` on. */
  function Pairs(shades: seq<Shade>, bgIndex: nat): seq<Pairing>
    requires bgIndex <= 6
    decreases 6 - bgIndex
  {
    if bgIndex == 6 then []
    else
      var rest := Pairs(shades, bgIndex + 1);
      match Find(shades, TestShades[bgIndex])
      case None => rest
      case Some(bg) => Row(shades, bg, bgIndex, bgIndex + 1) + rest
  }

  lemma PairsWellFormedAppend(shades: seq<Shade>, a: seq<Pairing>, b: seq<Pairing>)
    requires AllPairsWellFormed(shades, a) && AllPairsWellFormed(shades, b)
    ensures AllPairsWellFormed(shades, a + b)
  {
    forall k | 0 <= k < |a + b| ensures PairWellFormed(shades, (a + b)[k]) {
      if k < |a| {
        assert (a + b)[k] == a[k];
      } else {
        assert (a + b)[k] == b[k - |a|];
      }
    }
  }

  /** Every pair of a row is one the loops can choose. */
  lemma {:induction false} RowWellFormed(shades: seq<Shade>, bg: Shade, bgIndex: nat, fgIndex: nat)
    requires bgIndex < fgIndex <= 6 && Find(shades, TestShades[bgIndex]) == Some(bg)
    ensures AllPairsWellFormed(shades, Row(shades, bg, bgIndex, fgIndex))
    decreases 6 - fgIndex
  {
    if fgIndex < 6 {
      var rest := Row(shades, bg, bgIndex, fgIndex + 1);
      RowWellFormed(shades, bg, bgIndex, fgIndex + 1);
      match Find(shades, TestShades[fgIndex])
      case None =>
      case Some(fg) =>
        TestIndexOf(bgIndex);
        TestIndexOf(fgIndex);
        assert PairWellFormed(shades, Pairing(bg, fg));
        assert AllPairsWellFormed(shades, [Pairing(bg, fg)]);
        PairsWellFormedAppend(shades, [Pairing(bg, fg)], rest);
    }
  }

  /** Every pair of the enumeration is one the loops can choose. */
  lemma {:induction false} PairsWellFormed(shades: seq<Shade>, bgIndex: nat)
    requires bgIndex <= 6
    ensures AllPairsWellFormed(shades, Pairs(shades, bgIndex))
    decreases 6 - bgIndex
  {
    if bgIndex < 6 {
      var rest := Pairs(shades, bgIndex + 1);
      PairsWellFormed(shades, bgIndex + 1);
      match Find(shades, TestShades[bgIndex])
      case None =>
      case Some(bg) =>
        RowWellFormed(shades, bg, bgIndex, bgIndex + 1);
        PairsWellFormedAppend(shades, Row(shades, bg, bgIndex, bgIndex + 1), rest);
    }
  }

  /** Where a pair comes in the enumeration: background index first, then foreground index. */
  function Key(background: Shade, foreground: Shade): int {
    6 * TestIndex(background.position) + TestIndex(foreground.position)
  }

  function PairKey(p: Pairing): int {
    Key(p.background, p.foreground)
  }

  function ScoreKey(sc: Score): int {
    Key(sc.background, sc.foreground)
  }

  /** Strictly increasing keys: enumeration order, and nothing twice. */
  ghost predicate Increasing<T>(s: seq<T>, key: T -> int) {
    forall k, l :: 0 <= k < l < |s| ==> key(s[k]) < key(s[l])
  }

  /** Every key of `s` lies in `[lo, hi)`. */
  ghost predicate KeysWithin<T>(s: seq<T>, key: T -> int, lo: int, hi: int) {
    forall k :: 0 <= k < |s| ==> lo <= key(s[k]) < hi
  }

  lemma KeysAppend<T>(a: seq<T>, b: seq<T>, key: T -> int, lo: int, hi: int)
    requires KeysWithin(a, key, lo, hi) && KeysWithin(b, key, lo, hi)
    ensures KeysWithin(a + b, key, lo, hi)
  {
    forall k | 0 <= k < |a + b| ensures lo <= key((a + b)[k]) < hi {
      if k < |a| {
        assert (a + b)[k] == a[k];
      } else {
        assert (a + b)[k] == b[k - |a|];
      }
    }
  }

  /** An element keyed below every key of an increasing list can go in front of it. */
  lemma OrderCons<T>(x: T, rest: seq<T>, key: T -> int, lo: int, hi: int)
    requires Increasing(rest, key) && KeysWithin(rest, key, lo, hi) && key(x) < lo
    ensures Increasing([x] + rest, key)
  {
    var p := [x] + rest;
    forall k, l | 0 <= k < l < |p| ensures key(p[k]) < key(p[l]) {
      assert p[l] == rest[l - 1];
      if k > 0 { assert p[k] == rest[k - 1]; }
    }
  }

  /** Two increasing lists whose keys are separated join into an increasing list. */
  lemma OrderAppend<T>(a: seq<T>, b: seq<T>, key: T -> int, lo: int, mid: int, hi: int)
    requires Increasing(a, key) && Increasing(b, key)
    requires KeysWithin(a, key, lo, mid) && KeysWithin(b, key, mid, hi)
    ensures Increasing(a + b, key)
  {
    var p := a + b;
    forall k, l | 0 <= k < l < |p| ensures key(p[k]) < key(p[l]) {
      if l < |a| {
        assert p[k] == a[k] && p[l] == a[l];
      } else if k < |a| {
        assert p[k] == a[k] && p[l] == b[l - |a|];
      } else {
        assert p[k] == b[k - |a|] && p[l] == b[l - |a|];
      }
    }
  }

  /** Dropping the head of an increasing list leaves an increasing list of larger keys. */
  lemma OrderTail<T>(p: seq<T>, key: T -> int, hi: int)
    requires |p| > 0 && Increasing(p, key) && KeysWithin(p, key, key(p[0]), hi)
    ensures Increasing(p[1..], key)
    ensures KeysWithin(p[1..], key, key(p[0]) + 1, hi)
  {
    forall k, l | 0 <= k < l < |p[1..]| ensures key(p[1..][k]) < key(p[1..][l]) {
      assert p[1..][k] == p[k + 1] && p[1..][l] == p[l + 1];
    }
    forall k | 0 <= k < |p[1..]| ensures key(p[0]) + 1 <= key(p[1..][k]) < hi {
      assert p[1..][k] == p[k + 1];
    }
  }

  lemma FilterKeys<T(!new)>(s: seq<T>, keep: T -> bool, key: T -> int, lo: int, hi: int)
    requires KeysWithin(s, key, lo, hi)
    ensures KeysWithin(Filter(s, keep), key, lo, hi)
  {
    var inRange := (x: T) => lo <= key(x) < hi;
    FilterAll(s, keep, inRange);
  }

  /** Filtering an increasing list keeps it increasing. */
  lemma {:induction false} IncreasingFilter<T(!new)>(p: seq<T>, keep: T -> bool, key: T -> int, lo: int, hi: int)
    requires Increasing(p, key) && KeysWithin(p, key, lo, hi)
    ensures Increasing(Filter(p, keep), key)
    decreases |p|
  {
    if |p| > 0 {
      assert KeysWithin(p, key, key(p[0]), hi);
      OrderTail(p, key, hi);
      IncreasingFilter(p[1..], keep, key, key(p[0]) + 1, hi);
      FilterCons(p, keep);
      if keep(p[0]) {
        FilterKeys(p[1..], keep, key, key(p[0]) + 1, hi);
        OrderCons(p[0], Filter(p[1..], keep), key, key(p[0]) + 1, hi);
      }
    }
  }

  /** The keys of a row: its background's index, and foreground indices from `fgIndex` on. */
  lemma {:induction false} RowKeys(shades: seq<Shade>, bg: Shade, bgIndex: nat, fgIndex: nat)
    requires bgIndex < fgIndex <= 6 && Find(shades, TestShades[bgIndex]) == Some(bg)
    ensures KeysWithin(Row(shades, bg, bgIndex, fgIndex), PairKey, 6 * bgIndex + fgIndex, 6 * bgIndex + 6)
    decreases 6 - fgIndex
  {
    if fgIndex < 6 {
      var rest := Row(shades, bg, bgIndex, fgIndex + 1);
      RowKeys(shades, bg, bgIndex, fgIndex + 1);
      match Find(shades, TestShades[fgIndex])
      case None =>
      case Some(fg) =>
        TestIndexOf(bgIndex);
        TestIndexOf(fgIndex);
        assert PairKey(Pairing(bg, fg)) == 6 * bgIndex + fgIndex;
        assert KeysWithin([Pairing(bg, fg)], PairKey, 6 * bgIndex + fgIndex, 6 * bgIndex + 6);
        KeysAppend([Pairing(bg, fg)], rest, PairKey, 6 * bgIndex + fgIndex, 6 * bgIndex + 6);
    }
  }

  /** The keys of the enumeration from background index `bgIndex` on. */
  lemma {:induction false} PairsKeys(shades: seq<Shade>, bgIndex: nat)
    requires bgIndex <= 6
    ensures KeysWithin(Pairs(shades, bgIndex), PairKey, 6 * bgIndex, 36)
    decreases 6 - bgIndex
  {
    if bgIndex < 6 {
      var rest := Pairs(shades, bgIndex + 1);
      PairsKeys(shades, bgIndex + 1);
      match Find(shades, TestShades[bgIndex])
      case None =>
      case Some(bg) =>
        RowKeys(shades, bg, bgIndex, bgIndex + 1);
        KeysAppend(Row(shades, bg, bgIndex, bgIndex + 1), rest, PairKey, 6 * bgIndex, 36);
    }
  }

  /** Within a row the foreground index, and so the key, strictly increases. */
  lemma {:induction false} RowInOrder(shades: seq<Shade>, bg: Shade, bgIndex: nat, fgIndex: nat)
    requires bgIndex < fgIndex <= 6 && Find(shades, TestShades[bgIndex]) == Some(bg)
    ensures Increasing(Row(shades, bg, bgIndex, fgIndex), PairKey)
    decreases 6 - fgIndex
  {
    if fgIndex < 6 {
      RowInOrder(shades, bg, bgIndex, fgIndex + 1);
      var rest := Row(shades, bg, bgIndex, fgIndex + 1);
      RowKeys(shades, bg, bgIndex, fgIndex + 1);
      match Find(shades, TestShades[fgIndex])
      case None =>
      case Some(fg) =>
        TestIndexOf(bgIndex);
        TestIndexOf(fgIndex);
        assert PairKey(Pairing(bg, fg)) == 6 * bgIndex + fgIndex;
        OrderCons(Pairing(bg, fg), rest, PairKey, 6 * bgIndex + fgIndex + 1, 6 * bgIndex + 6);
    }
  }

  /** The enumeration visits pairs in strictly increasing key order, so none twice. */
  lemma {:induction false} PairsInOrder(shades: seq<Shade>, bgIndex: nat)
    requires bgIndex <= 6
    ensures Increasing(Pairs(shades, bgIndex), PairKey)
    decreases 6 - bgIndex
  {
    if bgIndex < 6 {
      PairsInOrder(shades, bgIndex + 1);
      var rest := Pairs(shades, bgIndex + 1);
      PairsKeys(shades, bgIndex + 1);
      match Find(shades, TestShades[bgIndex])
      case None =>
      case Some(bg) =>
        var row := Row(shades, bg, bgIndex, bgIndex + 1);
        RowInOrder(shades, bg, bgIndex, bgIndex + 1);
        RowKeys(shades, bg, bgIndex, bgIndex + 1);
        OrderAppend(row, rest, PairKey, 6 * bgIndex, 6 * bgIndex + 6, 36);
    }
  }

  /** How many of the test positions from index `from` on the ramp has. */
  function PresentFrom(shades: seq<Shade>, from: nat): (n: nat)
    requires from <= 6
    ensures n <= 6 - from
    decreases 6 - from
  {
    if from == 6 then 0
    else (if Find(shades, TestShades[from]).Some? then 1 else 0) + PresentFrom(shades, from + 1)
  }

  lemma {:induction false} RowLength(shades: seq<Shade>, bg: Shade, bgIndex: nat, fgIndex: nat)
    requires bgIndex < fgIndex <= 6
    ensures |Row(shades, bg, bgIndex, fgIndex)| == PresentFrom(shades, fgIndex)
    decreases 6 - fgIndex
  {
    if fgIndex < 6 {
      RowLength(shades, bg, bgIndex, fgIndex + 1);
    }
  }

  /** The number of two-element subsets of an `n`-element set. */
  function PairCount(n: nat): nat {
    if n == 0 then 0 else n - 1 + PairCount(n - 1)
  }

  /** `PairCount(n)` is n(n-1)/2. */
  lemma {:induction false} PairCountFormula(n: nat)
    ensures 2 * PairCount(n) == n * (n - 1)
  {
    if n > 0 {
      PairCountFormula(n - 1);
      assert n * (n - 1) == (n - 1) * (n - 2) + 2 * (n - 1);
    }
  }

  /** With `n` of the six test positions present the loops choose n(n-1)/2 pairs. */
  lemma {:induction false} PairsLength(shades: seq<Shade>, bgIndex: nat)
    requires bgIndex <= 6
    ensures |Pairs(shades, bgIndex)| == PairCount(PresentFrom(shades, bgIndex))
    decreases 6 - bgIndex
  {
    if bgIndex < 6 {
      PairsLength(shades, bgIndex + 1);
      var n := PresentFrom(shades, bgIndex + 1);
      match Find(shades, TestShades[bgIndex])
      case None =>
      case Some(bg) =>
        RowLength(shades, bg, bgIndex, bgIndex + 1);
        assert PairCount(n + 1) == n + PairCount(n);
    }
  }

  lemma PairsAtMost15(shades: seq<Shade>)
    ensures |Pairs(shades, 0)| <= 15
  {
    PairsLength(shades, 0);
    var n := PresentFrom(shades, 0);
    PairCountFormula(n);
    assert n == 0 || n == 1 || n == 2 || n == 3 || n == 4 || n == 5 || n == 6;
  }

  lemma {:induction false} AllPresent(shades: seq<Shade>, from: nat)
    requires from <= 6
    requires forall k :: from <= k < 6 ==> Find(shades, TestShades[k]).Some?
    ensures PresentFrom(shades, from) == 6 - from
    decreases 6 - from
  {
    if from < 6 {
      AllPresent(shades, from + 1);
    }
  }

  /** Some pair of `ps` has the background at `bgPos` and the foreground at `fgPos`. */
  ghost predicate Covers(ps: seq<Pairing>, bgPos: int, fgPos: int) {
    exists k :: 0 <= k < |ps| && ps[k].background.position == bgPos && ps[k].foreground.position == fgPos
  }

  lemma CoversAppend(a: seq<Pairing>, b: seq<Pairing>, bgPos: int, fgPos: int)
    ensures Covers(a, bgPos, fgPos) ==> Covers(a + b, bgPos, fgPos)
    ensures Covers(b, bgPos, fgPos) ==> Covers(a + b, bgPos, fgPos)
  {
    if Covers(a, bgPos, fgPos) {
      var k :| 0 <= k < |a| && a[k].background.position == bgPos && a[k].foreground.position == fgPos;
      assert (a + b)[k] == a[k];
    }
    if Covers(b, bgPos, fgPos) {
      var k :| 0 <= k < |b| && b[k].background.position == bgPos && b[k].foreground.position == fgPos;
      assert (a + b)[|a| + k] == b[k];
    }
  }

  /** Every pair of present test positions, the earlier one as background, is enumerated. */
  lemma {:induction false} PairsComplete(shades: seq<Shade>, bgIndex: nat, i: nat, j: nat)
    requires bgIndex <= i < j < 6
    requires Find(shades, TestShades[i]).Some? && Find(shades, TestShades[j]).Some?
    ensures Covers(Pairs(shades, bgIndex), TestShades[i], TestShades[j])
    decreases 6 - bgIndex
  {
    var rest := Pairs(shades, bgIndex + 1);
    if bgIndex < i {
      PairsComplete(shades, bgIndex + 1, i, j);
      match Find(shades, TestShades[bgIndex])
      case None =>
      case Some(bg) =>
        CoversAppend(Row(shades, bg, bgIndex, bgIndex + 1), rest, TestShades[i], TestShades[j]);
    } else {
      var bg := Find(shades, TestShades[i]).value;
      RowComplete(shades, bg, i, i + 1, j);
      CoversAppend(Row(shades, bg, i, i + 1), rest, TestShades[i], TestShades[j]);
    }
  }

  lemma {:induction false} RowComplete(shades: seq<Shade>, bg: Shade, bgIndex: nat, fgIndex: nat, j: nat)
    requires bgIndex < fgIndex <= j < 6 && Find(shades, TestShades[bgIndex]) == Some(bg)
    requires Find(shades, TestShades[j]).Some?
    ensures Covers(Row(shades, bg, bgIndex, fgIndex), TestShades[bgIndex], TestShades[j])
    decreases 6 - fgIndex
  {
    var rest := Row(shades, bg, bgIndex, fgIndex + 1);
    if fgIndex < j {
      RowComplete(shades, bg, bgIndex, fgIndex + 1, j);
      match Find(shades, TestShades[fgIndex])
      case None =>
      case Some(fg) =>
        CoversAppend([Pairing(bg, fg)], rest, TestShades[bgIndex], TestShades[j]);
    } else {
      var fg := Find(shades, TestShades[j]).value;
      var head := [Pairing(bg, fg)];
      assert Covers(head, TestShades[bgIndex], TestShades[j]) by {
        assert head[0].foreground.position == TestShades[j];
      }
      CoversAppend(head, rest, TestShades[bgIndex], TestShades[j]);
    }
  }

  // ---------------------------------------------------------------------------
  // Scoring and ranking

  /** Each chosen pair with its ratio and level, in the order the loops chose them. */
  function Scored(luminance: string -> real, ps: seq<Pairing>): (r: seq<Score>)
    requires NonNegativeLuminance(luminance)
    ensures |r| == |ps|
    ensures forall k :: 0 <= k < |r| ==> r[k] == MakeScore(luminance, ps[k].background, ps[k].foreground)
  {
    seq(|ps|, k requires 0 <= k < |ps| => MakeScore(luminance, ps[k].background, ps[k].foreground))
  }

  /**
   * What every score of the report satisfies: its shades are a pair the loops
   * can choose, and the ratio, level and verdict are those computed for it.
   */
  ghost predicate WellFormed(shades: seq<Shade>, luminance: string -> real, sc: Score)
    requires NonNegativeLuminance(luminance)
  {
    PairWellFormed(shades, Pairing(sc.background, sc.foreground))
    && sc == MakeScore(luminance, sc.background, sc.foreground)
  }

  ghost predicate AllWellFormed(shades: seq<Shade>, luminance: string -> real, r: seq<Score>)
    requires NonNegativeLuminance(luminance)
  {
    forall k :: 0 <= k < |r| ==> WellFormed(shades, luminance, r[k])
  }

  lemma ScoredWellFormed(shades: seq<Shade>, luminance: string -> real, ps: seq<Pairing>)
    requires NonNegativeLuminance(luminance) && AllPairsWellFormed(shades, ps)
    ensures AllWellFormed(shades, luminance, Scored(luminance, ps))
  {
    var r := Scored(luminance, ps);
    forall k | 0 <= k < |r| ensures WellFormed(shades, luminance, r[k]) {
      assert Pairing(r[k].background, r[k].foreground) == ps[k];
    }
  }

  /** Scoring keeps each pair's place in the enumeration. */
  lemma ScoredInOrder(luminance: string -> real, ps: seq<Pairing>)
    requires NonNegativeLuminance(luminance) && Increasing(ps, PairKey)
    ensures Increasing(Scored(luminance, ps), ScoreKey)
    ensures KeysWithin(Scored(luminance, ps), ScoreKey, 0, 43)
  {
    var r := Scored(luminance, ps);
    forall k | 0 <= k < |r| ensures ScoreKey(r[k]) == PairKey(ps[k]) {
    }
  }

  /** The comparator `(a, b) => b.ratio - a.ratio`: `a` goes first when its ratio is higher. */
  predicate HigherRatio(a: Score, b: Score) {
    a.ratio > b.ratio
  }

  lemma HigherRatioIsStrictWeakOrder()
    ensures StrictWeakOrder(HigherRatio)
  {
  }

  /** Ratios never increase along the list. */
  ghost predicate ByRatio(r: seq<Score>) {
    forall i, j :: 0 <= i < j < |r| ==> r[i].ratio >= r[j].ratio
  }

  /** `computeAccessibilityScores`: the enumerated pairs, scored, ranked by ratio, highest first. */
  function ComputeScores(shades: seq<Shade>, luminance: string -> real): (r: seq<Score>)
    requires NonNegativeLuminance(luminance)
    ensures |r| <= 15
    ensures AllWellFormed(shades, luminance, r)
    ensures ByRatio(r)
    ensures multiset(r) == multiset(Scored(luminance, Pairs(shades, 0)))
  {
    var scored := Scored(luminance, Pairs(shades, 0));
    PairsAtMost15(shades);
    PairsWellFormed(shades, 0);
    ScoredWellFormed(shades, luminance, Pairs(shades, 0));
    SortedByRatio(scored);
    SortKeepsWellFormed(shades, luminance, scored);
    Sort(scored, HigherRatio)
  }

  lemma SortedByRatio(scores: seq<Score>)
    ensures ByRatio(Sort(scores, HigherRatio))
  {
    HigherRatioIsStrictWeakOrder();
    SortSorted(scores, HigherRatio);
    var r := Sort(scores, HigherRatio);
    forall i, j | 0 <= i < j < |r| ensures r[i].ratio >= r[j].ratio {
      assert !HigherRatio(r[j], r[i]);
    }
  }

  lemma SortKeepsWellFormed(shades: seq<Shade>, luminance: string -> real, scores: seq<Score>)
    requires NonNegativeLuminance(luminance)
    requires AllWellFormed(shades, luminance, scores)
    ensures AllWellFormed(shades, luminance, Sort(scores, HigherRatio))
  {
    var r := Sort(scores, HigherRatio);
    forall k | 0 <= k < |r| ensures WellFormed(shades, luminance, r[k]) {
      assert r[k] in multiset(scores);
      var j :| 0 <= j < |scores| && scores[j] == r[k];
    }
  }

  /** Every two test positions the ramp has are paired in the report, the lighter as background. */
  lemma ScoresComplete(shades: seq<Shade>, luminance: string -> real, i: nat, j: nat)
    requires NonNegativeLuminance(luminance)
    requires i < j < 6 && Find(shades, TestShades[i]).Some? && Find(shades, TestShades[j]).Some?
    ensures exists k :: (0 <= k < |ComputeScores(shades, luminance)|
      && ComputeScores(shades, luminance)[k].background.position == TestShades[i]
      && ComputeScores(shades, luminance)[k].foreground.position == TestShades[j])
  {
    var ps := Pairs(shades, 0);
    PairsComplete(shades, 0, i, j);
    var m :| 0 <= m < |ps| && ps[m].background.position == TestShades[i] && ps[m].foreground.position == TestShades[j];
    var sc := Scored(luminance, ps)[m];
    var r := ComputeScores(shades, luminance);
    assert sc in multiset(r);
    var k :| 0 <= k < |r| && r[k] == sc;
  }

  /** With all six test positions on the ramp the report always has 15 pairs. */
  lemma FifteenScores(shades: seq<Shade>, luminance: string -> real)
    requires NonNegativeLuminance(luminance)
    requires forall k :: 0 <= k < 6 ==> exists i :: 0 <= i < |shades| && shades[i].position == TestShades[k]
    ensures |ComputeScores(shades, luminance)| == 15
  {
    PairsLength(shades, 0);
    forall k | 0 <= k < 6 ensures Find(shades, TestShades[k]).Some? {
      FindNone(shades, TestShades[k]);
    }
    AllPresent(shades, 0);
    PairCountFormula(6);
    assert |ComputeScores(shades, luminance)| == |Pairs(shades, 0)|;
  }

  /**
   * Ties keep enumeration order (`Array.prototype.sort` is stable): the
   * scores with any given ratio appear in the report in the order they were
   * enumerated.
   */
  lemma ScoresStable(shades: seq<Shade>, luminance: string -> real, v: Score)
    requires NonNegativeLuminance(luminance)
    ensures Filter(ComputeScores(shades, luminance), TiedWith(HigherRatio, v))
         == Filter(Scored(luminance, Pairs(shades, 0)), TiedWith(HigherRatio, v))
    ensures Increasing(Filter(ComputeScores(shades, luminance), TiedWith(HigherRatio, v)), ScoreKey)
  {
    var scored := Scored(luminance, Pairs(shades, 0));
    HigherRatioIsStrictWeakOrder();
    SortStable(scored, HigherRatio, v);
    PairsInOrder(shades, 0);
    ScoredInOrder(luminance, Pairs(shades, 0));
    IncreasingFilter(scored, TiedWith(HigherRatio, v), ScoreKey, 0, 43);
  }

  function Passes(sc: Score): bool {
    sc.pass
  }

  function Fails(sc: Score): bool {
    !sc.pass
  }

  /** `accessibilityScores.filter(score => score.pass)` */
  function Passing(scores: seq<Score>): seq<Score> {
    Filter(scores, Passes)
  }

  /** `accessibilityScores.filter(score => !score.pass)` */
  function Failing(scores: seq<Score>): seq<Score> {
    Filter(scores, Fails)
  }

  /** `pass` agrees with the ratio on every score and the ratios never increase. */
  ghost predicate Ranked(scores: seq<Score>) {
    PassMatchesRatio(scores) && ByRatio(scores)
  }

  /** The passing scores are a prefix of `scores` and the failing ones the rest. */
  ghost predicate SplitsAtPassing(scores: seq<Score>) {
    var n := |Passing(scores)|;
    n <= |scores| && Passing(scores) == scores[..n] && Failing(scores) == scores[n..]
  }

  /**
   * On a ranked report the passing combinations are exactly its first
   * `|Passing|` entries and the failing ones the rest: the two lists
   * partition it and each keeps the ranked order.
   */
  lemma {:induction false} PartitionIsSplit(scores: seq<Score>)
    requires Ranked(scores)
    ensures SplitsAtPassing(scores)
    decreases |scores|
  {
    if |scores| > 0 {
      var rest := scores[1..];
      assert Ranked(rest) by {
        forall k | 0 <= k < |rest| ensures rest[k] == scores[k + 1] { }
      }
      if scores[0].pass {
        PartitionIsSplit(rest);
        SplitPassingHead(scores);
      } else {
        forall k | 0 <= k < |scores| ensures Fails(scores[k]) {
          assert scores[0].ratio >= scores[k].ratio;
        }
        AllFailing(scores);
      }
    }
  }

  lemma SplitPassingHead(scores: seq<Score>)
    requires |scores| > 0 && scores[0].pass && SplitsAtPassing(scores[1..])
    ensures SplitsAtPassing(scores)
  {
    var n' := |Passing(scores[1..])|;
    PassingHead(scores);
    SliceCons(scores, n');
  }

  /** A passing head goes to the passing list, and the failing list is the tail's. */
  lemma PassingHead(scores: seq<Score>)
    requires |scores| > 0 && scores[0].pass
    ensures Passing(scores) == [scores[0]] + Passing(scores[1..])
    ensures Failing(scores) == Failing(scores[1..])
  {
    FilterCons(scores, Passes);
    FilterCons(scores, Fails);
  }

  lemma AllFailing(scores: seq<Score>)
    requires forall k :: 0 <= k < |scores| ==> Fails(scores[k])
    ensures SplitsAtPassing(scores)
  {
    NoneCanPass(scores);
    FilterKeepsAll(scores, Fails);
  }

  lemma NoneCanPass(scores: seq<Score>)
    requires forall k :: 0 <= k < |scores| ==> !scores[k].pass
    ensures Passing(scores) == []
  {
  }

  /**
   * The report reads as its passing combinations followed by its failing ones,
   * with the 3:1 threshold between them.
   */
  lemma PassingThenFailing(scores: seq<Score>)
    requires Ranked(scores)
    ensures Passing(scores) + Failing(scores) == scores
    ensures forall k :: 0 <= k < |Passing(scores)| ==> Passing(scores)[k].ratio >= 3.0
    ensures forall k :: 0 <= k < |Failing(scores)| ==> Failing(scores)[k].ratio < 3.0
  {
    PartitionIsSplit(scores);
    SplitJoins(scores);
    PassingAbove(scores);
    FailingBelow(scores);
  }

  lemma SplitJoins(scores: seq<Score>)
    requires SplitsAtPassing(scores)
    ensures Passing(scores) + Failing(scores) == scores
  {
    var n := |Passing(scores)|;
    assert scores[..n] + scores[n..] == scores;
  }

  /** `pass` holds exactly when the ratio reaches 3:1 (`getAccessibilityLevel`). */
  ghost predicate PassMatchesRatio(scores: seq<Score>) {
    forall k :: 0 <= k < |scores| ==> (scores[k].pass <==> scores[k].ratio >= 3.0)
  }

  lemma PassingAbove(scores: seq<Score>)
    requires PassMatchesRatio(scores)
    ensures forall k :: 0 <= k < |Passing(scores)| ==> Passing(scores)[k].ratio >= 3.0
  {
    var above := (sc: Score) => sc.pass ==> sc.ratio >= 3.0;
    FilterAll(scores, Passes, above);
    forall k | 0 <= k < |Passing(scores)| ensures Passing(scores)[k].ratio >= 3.0 {
      assert Passing(scores)[k] in Passing(scores);
      assert above(Passing(scores)[k]);
    }
  }

  lemma FailingBelow(scores: seq<Score>)
    requires PassMatchesRatio(scores)
    ensures forall k :: 0 <= k < |Failing(scores)| ==> Failing(scores)[k].ratio < 3.0
  {
    var below := (sc: Score) => !sc.pass ==> sc.ratio < 3.0;
    FilterAll(scores, Fails, below);
    forall k | 0 <= k < |Failing(scores)| ensures Failing(scores)[k].ratio < 3.0 {
      assert Failing(scores)[k] in Failing(scores);
      assert below(Failing(scores)[k]);
    }
  }

  /** The report the tool computes satisfies the premise of `PartitionIsSplit`. */
  lemma ScoresRanked(shades: seq<Shade>, luminance: string -> real)
    requires NonNegativeLuminance(luminance)
    ensures Ranked(ComputeScores(shades, luminance))
  {
    var r := ComputeScores(shades, luminance);
    forall k | 0 <= k < |r| ensures r[k].pass <==> r[k].ratio >= 3.0 {
      assert WellFormed(shades, luminance, r[k]);
    }
  }

  /** No later shade of the ramp shares the position of the shade at `i`. */
  predicate LastAt(shades: seq<Shade>, i: nat)
    requires i < |shades|
  {
    forall j :: i < j < |shades| ==> shades[j].position != shades[i].position
  }

  /**
   * `downloadPalette`: `shades.reduce((acc, {shade, hex}) => { acc[shade] = hex; ... }, {})`.
   * Every position of the ramp is a key, nothing else is, and when two shades
   * share a position the later one's hex wins.
   */
  function Export(shades: seq<Shade>): (m: map<int, string>)
    ensures forall i :: 0 <= i < |shades| ==> shades[i].position in m
    ensures forall p :: p in m ==> exists i :: 0 <= i < |shades| && shades[i].position == p
  {
    if |shades| == 0 then map[]
    else
      var init := shades[..|shades| - 1];
      var last := shades[|shades| - 1];
      ExportKeys(shades, Export(init));
      Export(init)[last.position := last.hex]
  }

  lemma ExportKeys(shades: seq<Shade>, m0: map<int, string>)
    requires |shades| > 0
    requires var init := shades[..|shades| - 1];
      && (forall i :: 0 <= i < |init| ==> init[i].position in m0)
      && (forall p :: p in m0 ==> exists i :: 0 <= i < |init| && init[i].position == p)
    ensures var m := m0[shades[|shades| - 1].position := shades[|shades| - 1].hex];
      && (forall i :: 0 <= i < |shades| ==> shades[i].position in m)
      && (forall p :: p in m ==> exists i :: 0 <= i < |shades| && shades[i].position == p)
  {
    var init := shades[..|shades| - 1];
    var last := shades[|shades| - 1];
    var m := m0[last.position := last.hex];
    forall p | p in m ensures exists i :: 0 <= i < |shades| && shades[i].position == p {
      if p != last.position {
        var i :| 0 <= i < |init| && init[i].position == p;
        assert shades[i] == init[i];
      } else {
        assert shades[|shades| - 1].position == p;
      }
    }
    forall i | 0 <= i < |shades| ensures shades[i].position in m {
      if i < |init| { assert shades[i] == init[i]; }
    }
  }

  /** When two shades share a position the later one's hex wins. */
  lemma {:induction false} ExportLastWins(shades: seq<Shade>, i: nat)
    requires i < |shades| && LastAt(shades, i)
    ensures Export(shades)[shades[i].position] == shades[i].hex
    decreases |shades|
  {
    if i < |shades| - 1 {
      var init := shades[..|shades| - 1];
      assert shades[i] == init[i];
      assert LastAt(init, i);
      ExportLastWins(init, i);
    }
  }

  /** On a ramp with one shade per position every position maps to its own shade's hex. */
  lemma ExportDistinct(shades: seq<Shade>)
    requires forall i, j :: 0 <= i < j < |shades| ==> shades[i].position != shades[j].position
    ensures forall i :: 0 <= i < |shades| ==> Export(shades)[shades[i].position] == shades[i].hex
  {
    forall i | 0 <= i < |shades| ensures Export(shades)[shades[i].position] == shades[i].hex {
      ExportLastWins(shades, i);
    }
  }

  /** What the tool shows for one choice of base colour and slider values. */
  datatype View = View(shades: seq<Shade>, scores: seq<Score>, passing: seq<Score>, failing: seq<Score>)

  /**
   * The palette page: shades from the generator, the ranked report, and its
   * split into passing and failing combinations. The slider ranges are those
   * of the hue (−180..180) and vibrancy (0..100) sliders.
   */
  function Render(baseColor: string, vibrancy: int, hueShift: int,
                  generate: (string, int, int) -> seq<Shade>, luminance: string -> real): (v: View)
    requires 0 <= vibrancy <= 100 && -180 <= hueShift <= 180
    requires NonNegativeLuminance(luminance)
    ensures v.shades == generate(baseColor, vibrancy, hueShift)
    // the report is the ranked one for these shades, split by its two filters
    ensures v.scores == ComputeScores(v.shades, luminance)
    ensures v.passing == Passing(v.scores) && v.failing == Failing(v.scores)
    ensures |v.scores| <= 15 && v.passing + v.failing == v.scores
    ensures forall k :: 0 <= k < |v.passing| ==> v.passing[k].ratio >= 3.0
    ensures forall k :: 0 <= k < |v.failing| ==> v.failing[k].ratio < 3.0
  {
    var shades := generate(baseColor, vibrancy, hueShift);
    var scores := ComputeScores(shades, luminance);
    ScoresRanked(shades, luminance);
    PassingThenFailing(scores);
    View(shades, scores, Passing(scores), Failing(scores))
  }
}
