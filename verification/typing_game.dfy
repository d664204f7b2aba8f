/**
 * The typing test, driven one key at a time. The game holds the quote, what
 * the player has typed, the cursor position and the accuracy of the typing
 * so far, and whether the game has started or finished.
 *
 * The wall clock (`Date.now`) is a parameter of `Step`. The words-per-minute
 * figures computed from it are not modelled. The random choice of a quote is
 * a parameter of `PickQuote`.
 */
module TypingGame {
  import opened Common

  datatype Game = Game(
    quote: string,
    input: string,
    startTime: Option<int>,
    accuracy: int,
    started: bool,
    finished: bool,
    position: int)

  /** `!startTime`: no start time recorded (`null`), or the falsy time 0. */
  predicate NoStartTime(t: Option<int>) {
    t.None? || t.value == 0
  }

  /** `s.slice(0, -1)`: everything but the last character; the empty string stays empty. */
  function DropLast(s: string): (r: string)
    ensures |s| == 0 ==> r == ""
    ensures |s| > 0 ==> r + [s[|s| - 1]] == s
  {
    if |s| == 0 then "" else s[..|s| - 1]
  }

  /** `quotes[Math.floor(Math.random() * quotes.length)]`, with the random index as `choice`. */
  function PickQuote(quotes: seq<string>, choice: nat): (q: string)
    ensures |quotes| == 0 ==> q == ""
    ensures |quotes| > 0 ==> q in quotes && q == quotes[choice % |quotes|]
  {
    if |quotes| == 0 then "" else quotes[choice % |quotes|]
  }

  /** A fresh game on the given quote. */
  function NewGame(quote: string): (g: Game)
    ensures g.quote == quote && g.input == "" && g.position == 0 && g.accuracy == 100
    ensures g.startTime.None? && !g.started && !g.finished
  {
    Game(quote, "", None, 100, false, false, 0)
  }

  /** The state on first render: the first quote, `quotes[0] ?? ""`. */
  function InitialGame(quotes: seq<string>): (g: Game)
    ensures g == NewGame(if |quotes| > 0 then quotes[0] else "")
    ensures Valid(g)
  {
    NewGame(if |quotes| > 0 then quotes[0] else "")
  }

  /** `initGame` (the Reset button): a fresh game on a randomly chosen quote. */
  function InitGame(quotes: seq<string>, choice: nat): (g: Game)
    ensures g.input == "" && g.position == 0 && g.accuracy == 100
    ensures !g.started && !g.finished && g.startTime.None?
    ensures |quotes| == 0 ==> g.quote == ""
    ensures |quotes| > 0 ==> g.quote in quotes
    ensures Valid(g)
  {
    NewGame(PickQuote(quotes, choice))
  }

  // ---------------------------------------------------------------------------
  // Accuracy

  /** Whether the typed character at index `i` matches the quote there. */
  predicate MatchesAt(input: string, quote: string, i: int)
    requires 0 <= i < |input|
  {
    i < |quote| && input[i] == quote[i]
  }

  /** How many typed characters match the quote at the same index. */
  function MatchCount(input: string, quote: string): (c: nat)
    ensures c <= |input|
    ensures c == |input| <==> forall i :: 0 <= i < |input| ==> MatchesAt(input, quote, i)
  {
    if |input| == 0 then 0
    else
      var init := input[..|input| - 1];
      var c := MatchCount(init, quote);
      assert forall i :: 0 <= i < |init| ==> (MatchesAt(init, quote, i) <==> MatchesAt(input, quote, i));
      c + (if MatchesAt(input, quote, |input| - 1) then 1 else 0)
  }

  /** The counting loop of the key handler. */
  method CountCorrect(input: string, quote: string) returns (correct: nat)
    ensures correct == MatchCount(input, quote)
  {
    correct := 0;
    var i := 0;
    while i < |input|
      invariant 0 <= i <= |input|
      invariant correct == MatchCount(input[..i], quote)
    {
      assert input[..i + 1][..i] == input[..i];
      if i < |quote| && input[i] == quote[i] {
        correct := correct + 1;
      }
      i := i + 1;
    }
    assert input[..i] == input;
  }

  /**
   * `Math.floor((correct / input.length) * 100)`, or 100 for empty input,
   * in exact integer arithmetic.
   */
  function Accuracy(input: string, quote: string): (a: int)
    ensures 0 <= a <= 100
    ensures a == 100 <==> forall i :: 0 <= i < |input| ==> MatchesAt(input, quote, i)
  {
    if |input| > 0 then
      var c := MatchCount(input, quote);
      AccuracyBounds(c, |input|);
      100 * c / |input|
    else 100
  }

  lemma AccuracyBounds(c: nat, n: nat)
    requires 0 < n && c <= n
    ensures 0 <= 100 * c / n <= 100
    ensures 100 * c / n == 100 <==> c == n
  {
    var q, r := 100 * c / n, 100 * c % n;
    assert 100 * c == n * q + r && 0 <= r < n;
    if q > 100 {
      MulMonotone(n, 101, q);
    }
    if q < 0 {
      MulMonotone(n, q, -1);
    }
    if c < n && q == 100 {
      MulMonotone(n, c, n - 1);
    }
    if c == n {
      assert n * 100 + 0 == 100 * c;
      if q < 100 { MulMonotone(n, q, 99); }
      if q > 100 { MulMonotone(n, 101, q); }
    }
  }

  lemma MulMonotone(n: nat, a: int, b: int)
    requires a <= b
    ensures n * a <= n * b
  {
    assert n * b - n * a == n * (b - a);
  }

  // ---------------------------------------------------------------------------
  // The key handler

  /** What every reachable game satisfies. */
  predicate Valid(g: Game) {
    && 0 <= g.position == |g.input| <= |g.quote|
    && 0 <= g.accuracy <= 100
    && (g.finished <==> 0 < |g.quote| == g.position)
    && (!g.started ==> g.position == 0 && !g.finished && NoStartTime(g.startTime))
  }

  /** The start-timer branch: the first key of any kind starts the game. */
  function Start(g: Game, now: int): (s: Game)
    ensures NoStartTime(g.startTime) && !g.started ==> s == g.(startTime := Some(now), started := true)
    ensures !(NoStartTime(g.startTime) && !g.started) ==> s == g
  {
    if !g.started && NoStartTime(g.startTime) then g.(startTime := Some(now), started := true) else g
  }

  /** `handleUserInput(key)` at time `now`. */
  function Step(g: Game, key: string, now: int): (s: Game)
    // a finished game ignores every key
    ensures g.finished ==> s == g
    // any key of an unfinished game starts it, and the quote never changes
    ensures !g.finished && (g.started || NoStartTime(g.startTime)) ==> s.started
    ensures s.quote == g.quote
    ensures !g.finished && !g.started && NoStartTime(g.startTime) ==> s.startTime == Some(now)
    ensures g.started || !NoStartTime(g.startTime) ==> s.startTime == g.startTime
    // Backspace
    ensures !g.finished && key == "Backspace" && g.position > 0 ==>
      s.position == g.position - 1 && s.input == DropLast(g.input)
      && s.accuracy == g.accuracy && !s.finished
    ensures key == "Backspace" && g.position <= 0 ==>
      s.position == g.position && s.input == g.input && s.accuracy == g.accuracy && s.finished == g.finished
    // a single character while the quote is not yet complete
    ensures !g.finished && key != "Backspace" && g.position < |g.quote| && |key| == 1 ==>
      && s.input == g.input + key && s.position == g.position + 1
      && s.accuracy == Accuracy(s.input, g.quote)
      && (s.finished <==> (s.input == g.quote || g.position + 1 >= |g.quote|))
    // every other key leaves the typing untouched
    ensures key != "Backspace" && (g.position >= |g.quote| || |key| != 1) ==>
      s.input == g.input && s.position == g.position && s.accuracy == g.accuracy && s.finished == g.finished
  {
    if g.finished then g
    else
      var g1 := Start(g, now);
      if key == "Backspace" then
        if g1.position > 0 then g1.(position := g1.position - 1, input := DropLast(g1.input)) else g1
      else if g1.position >= |g1.quote| then g1
      else if |key| == 1 then
        var typed := g1.input + key;
        var reachedEnd := typed == g1.quote || g1.position + 1 >= |g1.quote|;
        g1.(input := typed, position := g1.position + 1, accuracy := Accuracy(typed, g1.quote),
            finished := if reachedEnd then true else g1.finished)
      else g1
  }

  /** Every key keeps a reachable game reachable. */
  lemma StepPreservesValid(g: Game, key: string, now: int)
    requires Valid(g)
    ensures Valid(Step(g, key, now))
  {
    if g.finished {
      assert Step(g, key, now) == g;
    } else if key == "Backspace" {
      BackspaceKeepsValid(g, now);
    } else if g.position < |g.quote| && |key| == 1 {
      TypeKeepsValid(g, key, now);
    } else {
      OtherKeyKeepsValid(g, key, now);
    }
  }

  /** Starting the game keeps it reachable and touches neither the typing nor the finished flag. */
  lemma StartKeepsValid(g: Game, now: int)
    requires Valid(g) && !g.finished
    ensures var g1 := Start(g, now);
      && Valid(g1) && g1.started && !g1.finished
      && g1.input == g.input && g1.position == g.position && g1.quote == g.quote && g1.accuracy == g.accuracy
  {
  }

  lemma BackspaceKeepsValid(g: Game, now: int)
    requires Valid(g) && !g.finished
    ensures Valid(Step(g, "Backspace", now))
  {
    var g1 := Start(g, now);
    StartKeepsValid(g, now);
    if g1.position > 0 {
      var s := g1.(position := g1.position - 1, input := DropLast(g1.input));
      assert Step(g, "Backspace", now) == s;
      assert |DropLast(g1.input)| == |g1.input| - 1;
      assert s.position < |s.quote|;
    } else {
      assert Step(g, "Backspace", now) == g1;
    }
  }

  lemma TypeKeepsValid(g: Game, key: string, now: int)
    requires Valid(g) && !g.finished && key != "Backspace" && g.position < |g.quote| && |key| == 1
    ensures Valid(Step(g, key, now))
  {
    var g1 := Start(g, now);
    StartKeepsValid(g, now);
    var typed := g1.input + key;
    var reachedEnd := typed == g1.quote || g1.position + 1 >= |g1.quote|;
    var s := g1.(input := typed, position := g1.position + 1, accuracy := Accuracy(typed, g1.quote),
                 finished := if reachedEnd then true else g1.finished);
    assert Step(g, key, now) == s;
    assert |typed| == s.position <= |s.quote|;
    assert 0 <= s.accuracy <= 100;
    if typed == g1.quote {
      assert s.position == |s.quote|;
    }
    assert s.finished <==> 0 < |s.quote| == s.position;
  }

  lemma OtherKeyKeepsValid(g: Game, key: string, now: int)
    requires Valid(g) && !g.finished && key != "Backspace" && (g.position >= |g.quote| || |key| != 1)
    ensures Valid(Step(g, key, now))
  {
    StartKeepsValid(g, now);
    assert Step(g, key, now) == Start(g, now);
  }

  /**
   * On a reachable game a typed character finishes it exactly when the new
   * position reaches the end of the quote.
   */
  lemma FinishesAtEnd(g: Game, key: string, now: int)
    requires Valid(g) && !g.finished && g.position < |g.quote| && |key| == 1 && key != "Backspace"
    ensures Step(g, key, now).finished <==> Step(g, key, now).position == |g.quote|
  {
  }

  /** A Backspace right after a typed character restores input and position. */
  lemma BackspaceUndoesType(g: Game, key: string, now: int, later: int)
    requires Valid(g) && !g.finished && g.position + 1 < |g.quote| && |key| == 1 && key != "Backspace"
    ensures var s := Step(Step(g, key, now), "Backspace", later);
      s.input == g.input && s.position == g.position && s.quote == g.quote && s.started
  {
    var t := Step(g, key, now);
    assert DropLast(g.input + key) == g.input;
  }

  /** The same accuracy is computed by the handler's counting loop. */
  method AccuracyOf(input: string, quote: string) returns (acc: int)
    ensures acc == Accuracy(input, quote)
    ensures 0 <= acc <= 100
  {
    var correct := CountCorrect(input, quote);
    acc := if |input| > 0 then 100 * correct / |input| else 100;
  }

  // ---------------------------------------------------------------------------
  // The keyboard filter of the page

  /** The modifier and navigation keys the page swallows before the game sees them. */
  const IgnoredKeys: seq<string> := ["Shift", "Control", "Alt", "Meta", "Tab", "CapsLock", "Escape"]

  /** `handleKeyDown`: the page's key filter in front of `Step`. */
  function HandleKeyDown(g: Game, key: string, now: int): (s: Game)
    ensures key in IgnoredKeys ==> s == g
    ensures key !in IgnoredKeys ==> s == Step(g, key, now)
  {
    if key in IgnoredKeys then g else Step(g, key, now)
  }

  /** None of the filtered keys would have reached the game as a character anyway, except to start it. */
  lemma IgnoredKeysAreNotCharacters()
    ensures forall k :: k in IgnoredKeys ==> |k| > 1 && k != "Backspace"
  {
  }
}
