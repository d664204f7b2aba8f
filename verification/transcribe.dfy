/**
 * Live transcription: the browser's speech recogniser delivers batches of
 * results, final ones become entries of a history and interim ones are shown
 * on a line of their own until they settle.
 *
 * The recogniser is outside the model. Whether the browser has one, whether
 * starting it succeeds and the clock reading (`Date.now()`) are parameters;
 * what a handler asks of the recogniser is returned as a `Call`. A result is
 * reduced to its first alternative's transcript and its `isFinal` flag.
 */
module Transcribe {
  import opened Common
  import opened Text

  datatype Result = Result(transcript: string, isFinal: bool)

  datatype Transcript = Transcript(id: string, text: string, timestamp: int, isFinal: bool)

  datatype Call = NoCall | StartRecognition | StopRecognition

  datatype Session = Session(
    recognizerReady: bool,
    listening: bool,
    transcripts: seq<Transcript>,
    current: string,
    error: Option<string>,
    languages: seq<string>)

  const DefaultLanguages: seq<string> := ["en-US", "hi-IN"]
  const NotInitialized: string := "Speech recognition not initialized"
  const StartFailed: string := "Unable to start speech recognition. Please try again."
  const UnsupportedOnIOS: string := "Speech recognition isn't available in iOS browsers yet. Try this app on a desktop browser (Chrome or Edge) for live transcription."
  const Unsupported: string := "Speech recognition is not supported in this browser. Please try Chrome or Edge on desktop."

  /** Errors the recogniser reports in normal use, which the widget ignores. */
  const BenignErrors: set<string> := {"no-speech", "aborted"}

  /**
   * The widget after mounting: with a recogniser it is ready and silent;
   * without one it shows why, with a message for iOS browsers.
   */
  function Mount(hasRecognizer: bool, isIOS: bool): (s: Session)
    ensures Valid(s) && !s.listening && s.transcripts == [] && s.current == ""
    ensures s.recognizerReady <==> hasRecognizer
    ensures s.error.None? <==> hasRecognizer
    ensures !hasRecognizer ==> s.error == Some(if isIOS then UnsupportedOnIOS else Unsupported)
    ensures s.languages == DefaultLanguages
  {
    Session(hasRecognizer, false, [], "",
      if hasRecognizer then None else Some(if isIOS then UnsupportedOnIOS else Unsupported),
      DefaultLanguages)
  }

  /** `selectedLanguages[0] || "en-US"`: the first language, unless there is none or it is empty. */
  function Language(selected: seq<string>): (lang: string)
    ensures lang != ""
    ensures |selected| > 0 && selected[0] != "" ==> lang == selected[0]
    ensures |selected| == 0 || selected[0] == "" ==> lang == "en-US"
  {
    if |selected| > 0 && selected[0] != "" then selected[0] else "en-US"
  }

  /** One listens only with a recogniser, and the history holds final, trimmed entries. */
  predicate Valid(s: Session) {
    && (s.listening ==> s.recognizerReady)
    && forall i :: 0 <= i < |s.transcripts| ==> EntryWellFormed(s.transcripts[i])
  }

  predicate EntryWellFormed(t: Transcript) {
    t.isFinal && (|t.text| > 0 ==> !IsWhitespace(t.text[0]) && !IsWhitespace(t.text[|t.text| - 1]))
  }

  // ---------------------------------------------------------------------------
  // Folding a batch of results

  /** `finalTranscript`: each final transcript followed by a space, in order. */
  function FinalOf(rs: seq<Result>): string {
    if |rs| == 0 then ""
    else FinalOf(rs[..|rs| - 1]) + (if rs[|rs| - 1].isFinal then rs[|rs| - 1].transcript + " " else "")
  }

  /** `interimTranscript`: the interim transcripts run together, in order. */
  function InterimOf(rs: seq<Result>): string {
    if |rs| == 0 then ""
    else InterimOf(rs[..|rs| - 1]) + (if rs[|rs| - 1].isFinal then "" else rs[|rs| - 1].transcript)
  }

  predicate HasFinal(rs: seq<Result>) {
    exists i :: 0 <= i < |rs| && rs[i].isFinal
  }

  /** The final text is non-empty exactly when some result is final, since each brings a space. */
  lemma {:induction false} FinalOfNonEmpty(rs: seq<Result>)
    ensures FinalOf(rs) != "" <==> HasFinal(rs)
    decreases |rs|
  {
    if |rs| > 0 {
      var init := rs[..|rs| - 1];
      FinalOfNonEmpty(init);
      if HasFinal(init) {
        var i :| 0 <= i < |init| && init[i].isFinal;
        assert rs[i].isFinal;
      }
      if HasFinal(rs) && !rs[|rs| - 1].isFinal {
        var i :| 0 <= i < |rs| && rs[i].isFinal;
        assert init[i].isFinal;
      }
    }
  }

  /** The results from `resultIndex` on; earlier ones were handled by earlier events. */
  function Pending(results: seq<Result>, resultIndex: nat): (rs: seq<Result>)
    ensures resultIndex <= |results| ==> rs == results[resultIndex..]
    ensures resultIndex >= |results| ==> rs == []
  {
    if resultIndex <= |results| then results[resultIndex..] else []
  }

  /** The loop of `onresult`, accumulating both strings. */
  method FoldResults(results: seq<Result>, resultIndex: nat) returns (final: string, interim: string)
    ensures final == FinalOf(Pending(results, resultIndex))
    ensures interim == InterimOf(Pending(results, resultIndex))
    ensures final != "" <==> HasFinal(Pending(results, resultIndex))
  {
    final, interim := "", "";
    var i := resultIndex;
    if i >= |results| {
      return;
    }
    while i < |results|
      invariant resultIndex <= i <= |results|
      invariant final == FinalOf(results[resultIndex..i])
      invariant interim == InterimOf(results[resultIndex..i])
    {
      var rs := results[resultIndex..i + 1];
      assert rs[..|rs| - 1] == results[resultIndex..i];
      if results[i].isFinal {
        final := final + results[i].transcript + " ";
      } else {
        interim := interim + results[i].transcript;
      }
      i := i + 1;
    }
    assert results[resultIndex..i] == results[resultIndex..];
    FinalOfNonEmpty(results[resultIndex..]);
  }

  /**
   * `recognition.onresult`: if a pending result is final, one entry with the
   * trimmed final text is appended and the interim line is cleared (interim
   * results of the same batch are dropped); otherwise the history stays and
   * the interim line shows the interim text.
   */
  function OnResult(s: Session, results: seq<Result>, resultIndex: nat, now: nat): (r: Session)
    ensures var rs := Pending(results, resultIndex);
      HasFinal(rs) ==>
        r == s.(transcripts := s.transcripts + [Transcript(NatToDecimal(now), Trim(FinalOf(rs)), now, true)], current := "")
    ensures var rs := Pending(results, resultIndex);
      !HasFinal(rs) ==> r == s.(current := InterimOf(rs))
    ensures Valid(s) ==> Valid(r)
  {
    var rs := Pending(results, resultIndex);
    var final := FinalOf(rs);
    FinalOfNonEmpty(rs);
    if final != "" then
      var entry := Transcript(NatToDecimal(now), Trim(final), now, true);
      assert EntryWellFormed(entry);
      s.(transcripts := s.transcripts + [entry], current := "")
    else
      s.(current := InterimOf(rs))
  }

  /** A batch whose only pending result is final records that transcript, trimmed. */
  lemma SingleFinalResult(s: Session, results: seq<Result>, resultIndex: nat, now: nat, t: string)
    requires Pending(results, resultIndex) == [Result(t, true)]
    ensures OnResult(s, results, resultIndex, now).transcripts == s.transcripts + [Transcript(NatToDecimal(now), Trim(t), now, true)]
    ensures OnResult(s, results, resultIndex, now).current == ""
  {
    var rs := [Result(t, true)];
    assert rs[..0] == [];
    assert FinalOf(rs) == t + " ";
    TrimIgnoresTrailingSpace(t);
    assert HasFinal(rs) by { assert rs[0].isFinal; }
  }

  /**
   * A final result that is only whitespace still adds an entry, with empty
   * text: the text before trimming holds the separating space.
   */
  lemma BlankFinalAddsEmptyEntry(s: Session, results: seq<Result>, resultIndex: nat, now: nat, t: string)
    requires Pending(results, resultIndex) == [Result(t, true)] && IsBlank(t)
    ensures |OnResult(s, results, resultIndex, now).transcripts| == |s.transcripts| + 1
    ensures OnResult(s, results, resultIndex, now).transcripts[|s.transcripts|].text == ""
  {
    SingleFinalResult(s, results, resultIndex, now, t);
    TrimEmptyIffBlank(t);
  }

  /** Interim results replace the interim line rather than extend it. */
  lemma InterimReplaces(s: Session, r1: seq<Result>, r2: seq<Result>, now: nat)
    requires !HasFinal(r2)
    ensures OnResult(OnResult(s, r1, 0, now), r2, 0, now).current == InterimOf(r2)
  {
  }

  // ---------------------------------------------------------------------------
  // The recogniser's other events and the buttons

  /** `recognition.onerror`: benign errors change nothing; any other shows and stops listening. */
  function OnError(s: Session, err: string): (r: Session)
    ensures err in BenignErrors ==> r == s
    ensures err !in BenignErrors ==> r == s.(error := Some("Error: " + err), listening := false)
    ensures Valid(s) ==> Valid(r)
  {
    if err == "no-speech" || err == "aborted" then s
    else s.(error := Some("Error: " + err), listening := false)
  }

  /**
   * `recognition.onend`: the recogniser stopped by itself; it is restarted
   * exactly when the widget still wants to listen. A failing restart is only
   * logged, so the session does not change either way.
   */
  function OnEnd(s: Session): (r: (Session, Call))
    ensures r.0 == s
    ensures r.1 == StartRecognition <==> s.listening
    ensures r.1 != StopRecognition
  {
    (s, if s.listening then StartRecognition else NoCall)
  }

  /**
   * `toggleListening`: without a recogniser it only reports that; while
   * listening it stops, keeping the text; otherwise it clears the error and
   * the interim line and starts, ending up listening only if the start succeeds.
   */
  function Toggle(s: Session, startSucceeds: bool): (r: (Session, Call))
    ensures !s.recognizerReady ==> r == (s.(error := Some(NotInitialized)), NoCall)
    ensures s.recognizerReady && s.listening ==> r == (s.(listening := false), StopRecognition)
    ensures s.recognizerReady && !s.listening ==>
      && r.1 == StartRecognition
      && r.0.transcripts == s.transcripts && r.0.current == "" && r.0.languages == s.languages
      && (r.0.listening <==> startSucceeds)
      && r.0.error == (if startSucceeds then None else Some(StartFailed))
    ensures r.0.transcripts == s.transcripts
    ensures Valid(s) ==> Valid(r.0)
  {
    if !s.recognizerReady then (s.(error := Some(NotInitialized)), NoCall)
    else if s.listening then (s.(listening := false), StopRecognition)
    else
      var cleared := s.(error := None, current := "");
      if startSucceeds then (cleared.(listening := true), StartRecognition)
      else (cleared.(error := Some(StartFailed), listening := false), StartRecognition)
  }

  /**
   * Once the user has stopped listening, or a real error has stopped it, the
   * recogniser's end event does not restart it; after a start, it restarts
   * exactly when the start succeeded.
   */
  lemma OnEndAfterStop(s: Session, startSucceeds: bool, err: string)
    ensures s.recognizerReady && s.listening ==> OnEnd(Toggle(s, startSucceeds).0).1 == NoCall
    ensures s.recognizerReady && !s.listening ==>
      (OnEnd(Toggle(s, startSucceeds).0).1 == StartRecognition <==> startSucceeds)
    ensures err !in BenignErrors ==> OnEnd(OnError(s, err)).1 == NoCall
    ensures err in BenignErrors ==> OnEnd(OnError(s, err)).1 == OnEnd(s).1
  {
  }

  /** Stopping and starting again keeps the history. */
  lemma ToggleTwiceKeepsHistory(s: Session, startSucceeds: bool)
    ensures Toggle(Toggle(s, startSucceeds).0, startSucceeds).0.transcripts == s.transcripts
  {
  }

  /** `clearTranscripts`: the only way history is wiped; the interim line goes too. */
  function Clear(s: Session): (r: Session)
    ensures r.transcripts == [] && r.current == ""
    ensures r.(transcripts := s.transcripts, current := s.current) == s
    ensures Valid(s) ==> Valid(r)
  {
    s.(transcripts := [], current := "")
  }

  /** History only ever grows, except by `Clear`. */
  lemma HistoryOnlyGrows(s: Session, results: seq<Result>, resultIndex: nat, now: nat, err: string, startSucceeds: bool)
    ensures s.transcripts <= OnResult(s, results, resultIndex, now).transcripts
    ensures OnError(s, err).transcripts == s.transcripts
    ensures OnEnd(s).0.transcripts == s.transcripts
    ensures Toggle(s, startSucceeds).0.transcripts == s.transcripts
  {
  }
}
