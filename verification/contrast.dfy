/**
 * The contrast arithmetic of the palette tool: the contrast ratio of two
 * relative luminances as WCAG 2.1 defines it ("contrast ratio"), and the
 * classification against the thresholds of success criteria 1.4.3 (4.5, and
 * 3 for large text) and 1.4.6 (7).
 *
 * Ratios are exact reals; the tool computes them in binary floating point.
 */
module Contrast {

  /** `(max(L1, L2) + 0.05) / (min(L1, L2) + 0.05)`. */
  function ContrastRatio(l1: real, l2: real): (r: real)
    requires l1 >= 0.0 && l2 >= 0.0
    ensures r >= 1.0
    ensures r == 1.0 <==> l1 == l2
  {
    var lighter := if l1 >= l2 then l1 else l2;
    var darker := if l1 >= l2 then l2 else l1;
    RatioOfOffsets(lighter, darker);
    (lighter + 0.05) / (darker + 0.05)
  }

  lemma RatioOfOffsets(lighter: real, darker: real)
    requires 0.0 <= darker <= lighter
    ensures (lighter + 0.05) / (darker + 0.05) >= 1.0
    ensures (lighter + 0.05) / (darker + 0.05) == 1.0 <==> lighter == darker
  {
    var q := (lighter + 0.05) / (darker + 0.05);
    assert q * (darker + 0.05) == lighter + 0.05;
    if q < 1.0 {
      PositiveProduct(1.0 - q, darker + 0.05);
    }
    if q == 1.0 {
      assert lighter + 0.05 == darker + 0.05;
    }
  }

  lemma PositiveProduct(a: real, b: real)
    requires a > 0.0 && b > 0.0
    ensures a * b > 0.0
  {
  }

  /** The order of the two colours does not matter. */
  lemma ContrastSymmetric(l1: real, l2: real)
    requires l1 >= 0.0 && l2 >= 0.0
    ensures ContrastRatio(l1, l2) == ContrastRatio(l2, l1)
  {
  }

  /** Relative luminances lie in [0, 1], so no ratio exceeds 21 (white on black). */
  lemma ContrastAtMost21(l1: real, l2: real)
    requires 0.0 <= l1 <= 1.0 && 0.0 <= l2 <= 1.0
    ensures ContrastRatio(l1, l2) <= 21.0
  {
    var lighter := if l1 >= l2 then l1 else l2;
    var darker := if l1 >= l2 then l2 else l1;
    var q := (lighter + 0.05) / (darker + 0.05);
    assert q * (darker + 0.05) == lighter + 0.05;
    if q > 21.0 {
      PositiveProduct(q - 21.0, darker + 0.05);
    }
  }

  /** Against a fixed darker colour, a lighter partner never lowers the ratio. */
  lemma ContrastGrowsWithLighter(lighter: real, lighter': real, darker: real)
    requires 0.0 <= darker <= lighter <= lighter'
    ensures ContrastRatio(lighter, darker) <= ContrastRatio(lighter', darker)
  {
    var d := darker + 0.05;
    var q, q' := (lighter + 0.05) / d, (lighter' + 0.05) / d;
    assert q * d == lighter + 0.05 && q' * d == lighter' + 0.05;
    if q > q' {
      PositiveProduct(q - q', d);
      assert (q - q') * d == q * d - q' * d;
    }
    assert ContrastRatio(lighter, darker) == (lighter + 0.05) / (darker + 0.05);
  }

  datatype Level = AAA | AA | AALarge | Fail

  /** The `{ level, pass }` pair the tool attaches to each ratio. */
  datatype Assessment = Assessment(level: Level, pass: bool)

  /** Every bound is inclusive at the lower end; anything at or above 3 passes. */
  function Classify(ratio: real): (a: Assessment)
    ensures a.pass <==> ratio >= 3.0
    ensures a.level == AAA <==> ratio >= 7.0
    ensures a.level == AA <==> 4.5 <= ratio < 7.0
    ensures a.level == AALarge <==> 3.0 <= ratio < 4.5
    ensures a.level == Fail <==> ratio < 3.0
  {
    if ratio >= 7.0 then Assessment(AAA, true)
    else if ratio >= 4.5 then Assessment(AA, true)
    else if ratio >= 3.0 then Assessment(AALarge, true)
    else Assessment(Fail, false)
  }

  /** The levels in increasing order of strictness. */
  function Strength(l: Level): nat {
    match l
    case Fail => 0
    case AALarge => 1
    case AA => 2
    case AAA => 3
  }

  /** A larger ratio never receives a weaker level. */
  lemma ClassifyMonotone(r1: real, r2: real)
    requires r1 <= r2
    ensures Strength(Classify(r1).level) <= Strength(Classify(r2).level)
    ensures Classify(r1).pass ==> Classify(r2).pass
  {
  }

  /** The boundary cases of the thresholds. */
  lemma ClassifyBoundaries()
    ensures Classify(7.0).level == AAA && Classify(6.99).level == AA
    ensures Classify(4.5).level == AA && Classify(4.49).level == AALarge
    ensures Classify(3.0).level == AALarge && Classify(2.99).level == Fail
    ensures Classify(3.0).pass && !Classify(2.99).pass
  {
  }
}
