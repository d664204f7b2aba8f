/**
 * How the typing area shows a game: one span per quote character, styled as
 * still to type, typed correctly or mistyped, and where the blinking cursor
 * sits among them.
 */
module TypingArea {
  import opened TypingGame

  datatype CharStyle = Pending | Correct | Mistyped

  /** The style of the quote character at `index`. */
  function StyleAt(quote: string, input: string, index: nat): (st: CharStyle)
    requires index < |quote|
    ensures st == Pending <==> index >= |input|
    ensures st == Correct <==> index < |input| && input[index] == quote[index]
    ensures st == Mistyped <==> index < |input| && input[index] != quote[index]
  {
    if index < |input| then (if input[index] == quote[index] then Correct else Mistyped)
    else Pending
  }

  /** `currentQuote.split("").map(...)`: the styles of all quote characters, in order. */
  function Styles(quote: string, input: string): (r: seq<CharStyle>)
    ensures |r| == |quote|
    ensures forall i :: 0 <= i < |quote| ==> r[i] == StyleAt(quote, input, i)
  {
    seq(|quote|, i requires 0 <= i < |quote| => StyleAt(quote, input, i))
  }

  /** How many entries of `r` are `st`. */
  function CountStyle(r: seq<CharStyle>, st: CharStyle): nat {
    if |r| == 0 then 0 else CountStyle(r[..|r| - 1], st) + (if r[|r| - 1] == st then 1 else 0)
  }

  /**
   * While the player has typed no more than the quote (always the case in a
   * game), the correctly styled characters are exactly the matches the
   * accuracy counts, and the pending ones are the untyped rest.
   */
  lemma {:induction false} StylesAgreeWithAccuracy(quote: string, input: string)
    requires |input| <= |quote|
    ensures CountStyle(Styles(quote, input), Correct) == MatchCount(input, quote)
    ensures CountStyle(Styles(quote, input), Pending) == |quote| - |input|
    decreases |quote|
  {
    if |input| < |quote| {
      var q := quote[..|quote| - 1];
      StylesAgreeWithAccuracy(q, input);
      StylesPrefix(quote, input);
      MatchCountIgnoresQuoteTail(input, quote);
    } else if |quote| > 0 {
      var q := quote[..|quote| - 1];
      var i := input[..|input| - 1];
      StylesAgreeWithAccuracy(q, i);
      StylesPrefix(quote, input);
      StylesChangeOnlyInTyped(q, input);
      MatchCountQuotePrefix(input, quote);
    }
  }

  lemma StylesPrefix(quote: string, input: string)
    requires |quote| > 0
    ensures Styles(quote, input)[..|quote| - 1] == Styles(quote[..|quote| - 1], input)
  {
  }

  /** Removing the last typed character only changes the style of that character. */
  lemma StylesChangeOnlyInTyped(q: string, input: string)
    requires |input| == |q| + 1
    ensures Styles(q, input) == Styles(q, input[..|input| - 1])
  {
    assert forall k :: 0 <= k < |q| ==> StyleAt(q, input, k) == StyleAt(q, input[..|input| - 1], k);
  }

  /** When input and quote have the same length, the last character counts against the full quote. */
  lemma MatchCountQuotePrefix(input: string, quote: string)
    requires |input| == |quote| > 0
    ensures MatchCount(input, quote)
         == MatchCount(input[..|input| - 1], quote[..|quote| - 1])
            + (if input[|input| - 1] == quote[|quote| - 1] then 1 else 0)
  {
    MatchCountIgnoresQuoteTail(input[..|input| - 1], quote);
  }

  lemma {:induction false} MatchCountIgnoresQuoteTail(input: string, quote: string)
    requires |input| < |quote|
    ensures MatchCount(input, quote) == MatchCount(input, quote[..|quote| - 1])
    decreases |input|
  {
    if |input| > 0 {
      MatchCountIgnoresQuoteTail(input[..|input| - 1], quote);
    }
  }

  /** The three-way case split of the cursor effect. */
  datatype Cursor = AtChar(index: nat) | AfterLast | Hidden

  function CursorPlacement(position: nat, charCount: nat): (c: Cursor)
    ensures c.AtChar? <==> 0 < charCount && position < charCount
    ensures c.AtChar? ==> c.index == position
    ensures c == AfterLast <==> 0 < charCount && position == charCount
    ensures c == Hidden <==> charCount == 0 || position > charCount
  {
    if charCount > 0 && position < charCount then AtChar(position)
    else if charCount > 0 && position == charCount then AfterLast
    else Hidden
  }

  /**
   * In a game still being played the cursor stands on the first character
   * not yet typed: everything before it is styled as typed, it and
   * everything after it as pending.
   */
  lemma CursorOnFirstPending(g: Game)
    requires Valid(g) && !g.finished && |g.quote| > 0
    ensures CursorPlacement(g.position, |g.quote|) == AtChar(g.position)
    ensures var r := Styles(g.quote, g.input);
      && r[g.position] == Pending
      && (forall i :: 0 <= i < g.position ==> r[i] != Pending)
      && (forall i :: g.position <= i < |r| ==> r[i] == Pending)
  {
  }

  /** A game whose quote is empty shows no cursor. */
  lemma EmptyQuoteHidesCursor(g: Game)
    requires Valid(g) && g.quote == ""
    ensures CursorPlacement(g.position, |g.quote|) == Hidden && Styles(g.quote, g.input) == []
  {
  }
}
