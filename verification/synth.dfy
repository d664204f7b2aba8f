/**
 * The synthesizer's note bookkeeping: a computer keyboard mapped onto
 * twenty notes from C4 to G5, the set of keys held down, and the list of
 * sounding notes shown by the note display and the staff animation.
 *
 * The Tone.js engine is outside the model: whether it has been created is a
 * flag, and what a handler asks of it is returned as a `Sound` or as the
 * value handed to an effect setter.
 */
module Synth {
  import opened Common
  import opened Seqs
  import opened Text

  /** The computer-keyboard layout: home row for naturals, the row above for sharps. */
  const KeyMap: map<string, string> := map[
    "a" := "C4", "w" := "C#4", "s" := "D4", "e" := "D#4", "d" := "E4",
    "f" := "F4", "t" := "F#4", "g" := "G4", "y" := "G#4", "h" := "A4",
    "u" := "A#4", "j" := "B4", "k" := "C5", "o" := "C#5", "l" := "D5",
    "p" := "D#5", ";" := "E5", "'" := "F5", "]" := "F#5", "\\" := "G5"
  ]

  /** The key that plays each note: `KeyMap` read backwards. */
  ghost const KeyOfNote: map<string, string> := map[
    "C4" := "a", "C#4" := "w", "D4" := "s", "D#4" := "e", "E4" := "d",
    "F4" := "f", "F#4" := "t", "G4" := "g", "G#4" := "y", "A4" := "h",
    "A#4" := "u", "B4" := "j", "C5" := "k", "C#5" := "o", "D5" := "l",
    "D#5" := "p", "E5" := ";", "F5" := "'", "F#5" := "]", "G5" := "\\"
  ]

  lemma KeyOfNoteInverts(key: string)
    requires key in KeyMap
    ensures KeyMap[key] in KeyOfNote && KeyOfNote[KeyMap[key]] == key
  {
  }

  /** No two keys play the same note. */
  lemma KeyMapInjective(k1: string, k2: string)
    requires k1 in KeyMap && k2 in KeyMap && k1 != k2
    ensures KeyMap[k1] != KeyMap[k2]
  {
    KeyOfNoteInverts(k1);
    KeyOfNoteInverts(k2);
  }

  /** The note a key event plays, looked up by the lower-cased key. */
  function NoteOf(key: string): (r: Option<string>)
    ensures r.Some? <==> ToLower(key) in KeyMap
    ensures r.Some? ==> r.value in KeyMap.Values && r.value != ""
  {
    var k := ToLower(key);
    if k in KeyMap then Some(KeyMap[k]) else None
  }

  /** Holding Shift or Caps Lock does not change which note a letter plays. */
  lemma NoteOfIgnoresCase(key: string)
    ensures NoteOf(key) == NoteOf(ToLower(key))
  {
    ToLowerIdempotent(key);
  }

  /** The Kelvin sign lower-cases to k, so that key event plays C5 like the k key. */
  lemma KelvinSignPlaysC5()
    ensures NoteOf([KelvinSign]) == Some("C5") == NoteOf("k")
  {
    assert ToLower([KelvinSign]) == "k";
    assert ToLower("k") == "k";
  }

  /** What a handler asks the synthesizer voice to do. */
  datatype Sound = Silent | Attack(note: string) | Release(note: string)

  /** The six effect sliders. */
  datatype Knob = Cutoff | DelayTime | ReverbDecay | Tremolo | BitCrush | Distort

  datatype State = State(
    engineReady: bool,
    activeKeys: set<string>,
    activeNotes: seq<string>,
    resetKey: int,
    knobs: map<Knob, real>)

  /** Before the engine exists: nothing held, nothing sounding, every slider at 0. */
  function Initial(engineReady: bool): (s: State)
    ensures Valid(s) && s.activeKeys == {} && s.activeNotes == [] && s.resetKey == 0
    ensures s.knobs.Keys == {Cutoff, DelayTime, ReverbDecay, Tremolo, BitCrush, Distort}
    ensures forall knob :: knob in s.knobs ==> s.knobs[knob] == 0.0
  {
    State(engineReady, {}, [], 0,
      map[Cutoff := 0.0, DelayTime := 0.0, ReverbDecay := 0.0, Tremolo := 0.0, BitCrush := 0.0, Distort := 0.0])
  }

  /** Each sounding note is listed once, and only mapped keys are ever held. */
  predicate Valid(s: State) {
    NoDuplicates(s.activeNotes) && s.activeKeys <= KeyMap.Keys
  }

  /** `Array.from(new Set([...prev, note]))` on the list of sounding notes. */
  function WithNote(notes: seq<string>, note: string): (r: seq<string>)
    ensures NoDuplicates(r)
    ensures forall x :: x in r <==> x in notes || x == note
    ensures NoDuplicates(notes) && note in notes ==> r == notes
    ensures NoDuplicates(notes) && note !in notes ==> r == notes + [note]
  {
    if NoDuplicates(notes) then
      DedupAppend(notes, note);
      Dedup(notes + [note])
    else Dedup(notes + [note])
  }

  /** `prev.filter((n) => n !== note)`. */
  function WithoutNote(notes: seq<string>, note: string): (r: seq<string>)
    ensures note !in r
    ensures forall x :: x != note ==> (x in r <==> x in notes)
    ensures forall x :: multiset(r)[x] == if x != note then multiset(notes)[x] else 0
    ensures IsSubsequence(r, notes)
    ensures NoDuplicates(notes) ==> NoDuplicates(r)
  {
    FilterIsSubsequence(notes, Differs(note));
    if NoDuplicates(notes) then
      FilterPreservesNoDuplicates(notes, Differs(note));
      Filter(notes, Differs(note))
    else Filter(notes, Differs(note))
  }

  /** Removing a note that was just added to a list without it gives back the list. */
  lemma WithoutUndoesWith(notes: seq<string>, note: string)
    requires NoDuplicates(notes) && note !in notes
    ensures WithoutNote(WithNote(notes, note), note) == notes
  {
    FilterAppend(notes, [note], Differs(note));
    FilterKeepsAll(notes, Differs(note));
    assert Filter([note], Differs(note)) == [];
  }

  /** `handleNoteOn`, from the on-screen keyboard: the note sounds and joins the list. */
  function NoteOn(s: State, note: string): (r: (State, Sound))
    ensures !s.engineReady ==> r == (s, Silent)
    ensures s.engineReady ==>
      && r.1 == Attack(note)
      && r.0 == s.(activeNotes := WithNote(s.activeNotes, note), resetKey := s.resetKey + 1)
  {
    if !s.engineReady then (s, Silent)
    else (s.(activeNotes := WithNote(s.activeNotes, note), resetKey := s.resetKey + 1), Attack(note))
  }

  /** `handleNoteOff`: the note is released and every occurrence leaves the list. */
  function NoteOff(s: State, note: string): (r: (State, Sound))
    ensures !s.engineReady ==> r == (s, Silent)
    ensures s.engineReady ==>
      && r.1 == Release(note)
      && r.0 == s.(activeNotes := WithoutNote(s.activeNotes, note), resetKey := s.resetKey + 1)
  {
    if !s.engineReady then (s, Silent)
    else (s.(activeNotes := WithoutNote(s.activeNotes, note), resetKey := s.resetKey + 1), Release(note))
  }

  /**
   * The window's keydown listener: ignored before the engine exists, while
   * the key is already held (auto-repeat) and for unmapped keys; otherwise
   * the key is held and its note sounds.
   */
  function KeyDown(s: State, key: string): (r: (State, Sound))
    ensures !s.engineReady || ToLower(key) in s.activeKeys || NoteOf(key).None? ==> r == (s, Silent)
    ensures s.engineReady && ToLower(key) !in s.activeKeys && NoteOf(key).Some? ==>
      && r.1 == Attack(NoteOf(key).value)
      && r.0 == s.(activeKeys := s.activeKeys + {ToLower(key)},
                   activeNotes := WithNote(s.activeNotes, NoteOf(key).value))
  {
    var k := ToLower(key);
    if !s.engineReady || k in s.activeKeys then (s, Silent)
    else match NoteOf(key)
      case None => (s, Silent)
      case Some(note) =>
        (s.(activeKeys := s.activeKeys + {k}, activeNotes := WithNote(s.activeNotes, note)), Attack(note))
  }

  /**
   * The window's keyup listener: a mapped key is released, whether or not it
   * was held, and its note leaves the list; anything else changes nothing.
   */
  function KeyUp(s: State, key: string): (r: (State, Sound))
    ensures !s.engineReady || NoteOf(key).None? ==> r == (s, Silent)
    ensures s.engineReady && NoteOf(key).Some? ==>
      && r.1 == Release(NoteOf(key).value)
      && r.0 == s.(activeKeys := s.activeKeys - {ToLower(key)},
                   activeNotes := WithoutNote(s.activeNotes, NoteOf(key).value))
  {
    if !s.engineReady then (s, Silent)
    else match NoteOf(key)
      case None => (s, Silent)
      case Some(note) =>
        (s.(activeKeys := s.activeKeys - {ToLower(key)}, activeNotes := WithoutNote(s.activeNotes, note)), Release(note))
  }

  /** Every handler keeps the note list duplicate-free and holds only mapped keys. */
  lemma HandlersPreserveValid(s: State, key: string, note: string)
    requires Valid(s)
    ensures Valid(NoteOn(s, note).0) && Valid(NoteOff(s, note).0)
    ensures Valid(KeyDown(s, key).0) && Valid(KeyUp(s, key).0)
  {
  }

  /** Auto-repeated keydown events of a key already down change nothing. */
  lemma KeyRepeatIgnored(s: State, key: string)
    ensures var s1 := KeyDown(s, key).0; KeyDown(s1, key) == (s1, Silent)
  {
  }

  /** The case of a key event does not matter. */
  lemma KeyEventsIgnoreCase(s: State, key: string)
    ensures KeyDown(s, key) == KeyDown(s, ToLower(key))
    ensures KeyUp(s, key) == KeyUp(s, ToLower(key))
  {
    ToLowerIdempotent(key);
  }

  /** Pressing and releasing a free key whose note is silent restores the state. */
  lemma KeyUpUndoesKeyDown(s: State, key: string)
    requires Valid(s) && s.engineReady && NoteOf(key).Some?
    requires ToLower(key) !in s.activeKeys && NoteOf(key).value !in s.activeNotes
    ensures KeyUp(KeyDown(s, key).0, key).0 == s
  {
    WithoutUndoesWith(s.activeNotes, NoteOf(key).value);
    assert s.activeKeys + {ToLower(key)} - {ToLower(key)} == s.activeKeys;
  }

  /** The factor between a slider's position and the engine parameter it sets. */
  function Scale(knob: Knob): (f: real)
    ensures f >= 1.0
  {
    match knob
    case Cutoff => 10000.0
    case ReverbDecay => 10.0
    case _ => 1.0
  }

  /** The value an effect setter receives for slider position `v`. */
  function EngineValue(knob: Knob, v: real): (x: real)
    ensures 0.0 <= v <= 1.0 ==> 0.0 <= x <= Scale(knob)
    ensures knob == Cutoff ==> x == 10000.0 * v
    ensures knob == ReverbDecay ==> x == 10.0 * v
    ensures knob !in {Cutoff, ReverbDecay} ==> x == v
  {
    v * Scale(knob)
  }

  /** Slider positions map onto engine values one-to-one and in order. */
  lemma EngineValueMonotone(knob: Knob, v: real, w: real)
    ensures v < w <==> EngineValue(knob, v) < EngineValue(knob, w)
    ensures v == w <==> EngineValue(knob, v) == EngineValue(knob, w)
  {
  }

  /**
   * A slider handler: once the engine exists the slider shows `v` and the
   * engine receives the scaled value; before that nothing happens.
   */
  function SetKnob(s: State, knob: Knob, v: real): (r: (State, Option<real>))
    ensures !s.engineReady ==> r == (s, None)
    ensures s.engineReady ==>
      && r.0 == s.(knobs := s.knobs[knob := v])
      && r.1 == Some(EngineValue(knob, v))
  {
    if !s.engineReady then (s, None)
    else (s.(knobs := s.knobs[knob := v]), Some(EngineValue(knob, v)))
  }
}
