/**
 * String helpers the widgets get from the JavaScript runtime:
 * `String.prototype.trim`, `Number.prototype.toString` on non-negative
 * integers, `parseInt` on a run of digits, and `toLowerCase` on the keys of a
 * keyboard event.
 */
module Text {

  /** The characters `trim` strips: ECMAScript WhiteSpace and LineTerminator code points. */
  predicate IsWhitespace(c: char) {
    || c == ' ' || c == '\t' || c == '\n' || c == '\r' || c == '\U{B}' || c == '\U{C}'
    || c == '\U{A0}' || c == '\U{1680}' || ('\U{2000}' <= c <= '\U{200A}')
    || c == '\U{2028}' || c == '\U{2029}' || c == '\U{202F}' || c == '\U{205F}'
    || c == '\U{3000}' || c == '\U{FEFF}'
  }

  /** A string made only of whitespace (the empty string included). */
  predicate IsBlank(s: string) {
    forall i :: 0 <= i < |s| ==> IsWhitespace(s[i])
  }

  function TrimStart(s: string): (r: string)
    ensures |r| <= |s| && r == s[|s| - |r|..]
    ensures |r| > 0 ==> !IsWhitespace(r[0])
    ensures IsBlank(s[..|s| - |r|])
  {
    if |s| > 0 && IsWhitespace(s[0]) then
      var r := TrimStart(s[1..]);
      var k := |s| - |r|;
      assert s[1..][k - 1..] == s[k..];
      assert IsBlank(s[..k]) by {
        forall i | 0 <= i < k ensures IsWhitespace(s[..k][i]) {
          if i > 0 { assert s[..k][i] == s[1..][..k - 1][i - 1]; }
        }
      }
      r
    else
      s
  }

  function TrimEnd(s: string): (r: string)
    ensures |r| <= |s| && r == s[..|r|]
    ensures |r| > 0 ==> !IsWhitespace(r[|r| - 1])
    ensures IsBlank(s[|r|..])
  {
    if |s| > 0 && IsWhitespace(s[|s| - 1]) then
      var r := TrimEnd(s[..|s| - 1]);
      assert s[..|s| - 1][..|r|] == s[..|r|];
      assert IsBlank(s[|r|..]) by {
        forall j | 0 <= j < |s| - |r| ensures IsWhitespace(s[|r|..][j]) {
          if j < |s| - 1 - |r| { assert s[|r|..][j] == s[..|s| - 1][|r|..][j]; }
        }
      }
      r
    else
      s
  }

  /** `s.trim()`: `s` without its leading and trailing whitespace. */
  function Trim(s: string): (r: string)
    ensures |r| <= |s|
    ensures |r| > 0 ==> !IsWhitespace(r[0]) && !IsWhitespace(r[|r| - 1])
  {
    TrimEnd(TrimStart(s))
  }

  /** `!s.trim()` holds exactly for the blank strings. */
  lemma TrimEmptyIffBlank(s: string)
    ensures Trim(s) == "" <==> IsBlank(s)
  {
    var t := TrimStart(s);
    if Trim(s) == "" {
      assert IsBlank(t[0..]);
      assert t == "";
      assert s[..|s|] == s;
    }
  }

  /** Trimming ignores one more trailing space. */
  lemma {:induction false} TrimEndSpace(s: string)
    ensures TrimEnd(s + " ") == TrimEnd(s)
  {
    assert (s + " ")[..|s + " "| - 1] == s;
  }

  lemma {:induction false} TrimStartSpace(s: string)
    ensures IsBlank(s) ==> TrimStart(s + " ") == ""
    ensures !IsBlank(s) ==> TrimStart(s + " ") == TrimStart(s) + " "
    decreases |s|
  {
    if |s| == 0 {
      assert " "[1..] == "";
    } else if IsWhitespace(s[0]) {
      assert (s + " ")[1..] == s[1..] + " ";
      TrimStartSpace(s[1..]);
      BlankCons(s);
    } else {
      assert !IsBlank(s);
    }
  }

  /** Behind a leading whitespace character, a string is blank exactly when its tail is. */
  lemma BlankCons(s: string)
    requires |s| > 0 && IsWhitespace(s[0])
    ensures IsBlank(s) <==> IsBlank(s[1..])
  {
    if IsBlank(s[1..]) {
      forall i | 0 <= i < |s| ensures IsWhitespace(s[i]) {
        if i > 0 { assert s[i] == s[1..][i - 1]; }
      }
    }
  }

  /** Appending a space before trimming changes nothing: `(s + " ").trim() == s.trim()`. */
  lemma TrimIgnoresTrailingSpace(s: string)
    ensures Trim(s + " ") == Trim(s)
  {
    TrimStartSpace(s);
    if IsBlank(s) {
      TrimEmptyIffBlank(s);
    } else {
      TrimEndSpace(TrimStart(s));
    }
  }

  // ---------------------------------------------------------------------------
  // Decimal numerals

  predicate IsDigit(c: char) {
    '0' <= c <= '9'
  }

  predicate AllDigits(s: string) {
    forall i :: 0 <= i < |s| ==> IsDigit(s[i])
  }

  function DigitChar(d: nat): (c: char)
    requires d < 10
    ensures IsDigit(c)
  {
    "0123456789"[d]
  }

  function DigitValue(c: char): (d: nat)
    requires IsDigit(c)
    ensures d < 10
  {
    (c as int - '0' as int) as nat
  }

  /** `n.toString()` for a non-negative integer: its decimal digits, no leading zero. */
  function NatToDecimal(n: nat): (r: string)
    ensures |r| > 0 && AllDigits(r)
    ensures n < 10 <==> |r| == 1
    ensures |r| > 1 ==> r[0] != '0'
    decreases n
  {
    if n < 10 then [DigitChar(n)] else NatToDecimal(n / 10) + [DigitChar(n % 10)]
  }

  /** The value of a string of decimal digits (`parseInt` on a digit run; empty gives 0). */
  function DecimalToNat(s: string): nat
    requires AllDigits(s)
  {
    if |s| == 0 then 0 else 10 * DecimalToNat(s[..|s| - 1]) + DigitValue(s[|s| - 1])
  }

  lemma {:induction false} DecimalRoundTrip(n: nat)
    ensures DecimalToNat(NatToDecimal(n)) == n
    decreases n
  {
    var r := NatToDecimal(n);
    if n < 10 {
      assert DigitValue(DigitChar(n)) == n;
      assert r[..0] == "";
    } else {
      DecimalRoundTrip(n / 10);
      assert r[..|r| - 1] == NatToDecimal(n / 10);
      assert DigitValue(DigitChar(n % 10)) == n % 10;
    }
  }

  /** Different non-negative integers print differently. */
  lemma NatToDecimalInjective(m: nat, n: nat)
    ensures NatToDecimal(m) == NatToDecimal(n) <==> m == n
  {
    if NatToDecimal(m) == NatToDecimal(n) {
      DecimalRoundTrip(m);
      DecimalRoundTrip(n);
    }
  }

  // ---------------------------------------------------------------------------
  // Case folding

  /** U+212A KELVIN SIGN, which `toLowerCase` maps to the Latin letter k. */
  const KelvinSign: char := '\U{212A}'

  /**
   * `toLowerCase` on one character, for the characters whose lower case is a
   * Basic Latin letter: the capitals A-Z and the Kelvin sign.
   */
  function LowerChar(c: char): (r: char)
    ensures 'A' <= c <= 'Z' ==> r as int == c as int + 32
    ensures c == KelvinSign ==> r == 'k'
    ensures !('A' <= c <= 'Z') && c != KelvinSign ==> r == c
  {
    if 'A' <= c <= 'Z' then (c as int + 32) as char
    else if c == KelvinSign then 'k'
    else c
  }

  function ToLower(s: string): (r: string)
    ensures |r| == |s|
    ensures forall i :: 0 <= i < |s| ==> r[i] == LowerChar(s[i])
  {
    seq(|s|, i requires 0 <= i < |s| => LowerChar(s[i]))
  }

  /** Lower-casing is idempotent. */
  lemma ToLowerIdempotent(s: string)
    ensures ToLower(ToLower(s)) == ToLower(s)
  {
  }
}
