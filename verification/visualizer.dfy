/**
 * The staff animation under the synthesizer: each sounding note gets an
 * animation that starts when the note starts, crosses the staff in two
 * seconds, fades out over its last eighth, and is drawn at the staff height
 * of its note name and octave.
 *
 * Clock readings (`performance.now()` and the animation-frame timestamp) are
 * parameters in milliseconds; painting the canvas is left out, and a frame
 * is described by the animations it keeps and the opacity each is drawn at.
 */
module Visualizer {
  import opened Common
  import opened Seqs
  import opened Text

  datatype Anim = Anim(note: string, startTime: real)

  /** The notes of a list of animations, in order. */
  function Notes(anims: seq<Anim>): (r: seq<string>)
    ensures |r| == |anims|
    ensures forall i :: 0 <= i < |anims| ==> r[i] == anims[i].note
  {
    if |anims| == 0 then [] else [anims[0].note] + Notes(anims[1..])
  }

  lemma {:induction false} NotesAppend(a: seq<Anim>, b: seq<Anim>)
    ensures Notes(a + b) == Notes(a) + Notes(b)
    decreases |a|
  {
    if |a| > 0 {
      assert (a + b)[1..] == a[1..] + b;
      NotesAppend(a[1..], b);
    } else {
      assert a + b == b;
    }
  }

  // ---------------------------------------------------------------------------
  // Keeping the animations in step with the sounding notes

  /**
   * The `activeNotes.forEach` loop: each note that no animation has yet, the
   * list as grown so far included, gets a new animation starting `now`.
   */
  function AddMissing(anims: seq<Anim>, notes: seq<string>, now: real): (r: seq<Anim>)
    ensures |anims| <= |r| && r[..|anims|] == anims
    decreases |notes|
  {
    if |notes| == 0 then anims
    else
      var r := AddMissing(Grow(anims, notes[0], now), notes[1..], now);
      assert r[..|anims|] == r[..|Grow(anims, notes[0], now)|][..|anims|];
      r
  }

  /** One step of the loop: `note` is added unless an animation already has it. */
  function Grow(anims: seq<Anim>, note: string, now: real): (r: seq<Anim>)
    ensures note in Notes(anims) ==> r == anims
    ensures note !in Notes(anims) ==> r == anims + [Anim(note, now)]
    ensures Notes(r) == if note in Notes(anims) then Notes(anims) else Notes(anims) + [note]
  {
    NotesAppend(anims, [Anim(note, now)]);
    if note in Notes(anims) then anims else anims + [Anim(note, now)]
  }

  /** Every animation past the first `|anims|` of `r` is new, starts `now`, and is for one of `notes`. */
  predicate AddedAreNew(anims: seq<Anim>, r: seq<Anim>, notes: seq<string>, now: real) {
    forall i :: |anims| <= i < |r| ==> r[i].startTime == now && r[i].note in notes && r[i].note !in Notes(anims)
  }

  /** The animations added are new, start `now`, and are for sounding notes no animation had. */
  lemma {:induction false} AddedAnims(anims: seq<Anim>, notes: seq<string>, now: real)
    ensures AddedAreNew(anims, AddMissing(anims, notes, now), notes, now)
    decreases |notes|
  {
    if |notes| > 0 {
      var grown := Grow(anims, notes[0], now);
      var r := AddMissing(grown, notes[1..], now);
      AddedAnims(grown, notes[1..], now);
      assert r[..|grown|] == grown;
      forall i | |anims| <= i < |r|
        ensures r[i].startTime == now && r[i].note in notes && r[i].note !in Notes(anims)
      {
        if i < |grown| {
          assert r[i] == grown[i] == Anim(notes[0], now);
        } else {
          assert AddedAreNew(grown, r, notes[1..], now);
          assert r[i].note in notes[1..] && r[i].note !in Notes(grown);
          assert forall x :: x in Notes(anims) ==> x in Notes(grown);
        }
      }
    }
  }

  /** Afterwards the notes with an animation are the ones that had one and the sounding ones. */
  lemma AddMissingNotes(anims: seq<Anim>, notes: seq<string>, now: real)
    ensures forall x :: x in Notes(AddMissing(anims, notes, now)) <==> x in Notes(anims) || x in notes
  {
    forall x ensures x in Notes(AddMissing(anims, notes, now)) <==> x in Notes(anims) || x in notes {
      AddMissingHas(anims, notes, now, x);
    }
  }

  lemma {:induction false} AddMissingHas(anims: seq<Anim>, notes: seq<string>, now: real, x: string)
    ensures x in Notes(AddMissing(anims, notes, now)) <==> x in Notes(anims) || x in notes
    decreases |notes|
  {
    if |notes| > 0 {
      var grown := Grow(anims, notes[0], now);
      AddMissingHas(grown, notes[1..], now, x);
      assert notes == [notes[0]] + notes[1..];
    }
  }

  /** No note gets a second animation. */
  lemma {:induction false} AddMissingNoDuplicates(anims: seq<Anim>, notes: seq<string>, now: real)
    requires NoDuplicates(Notes(anims))
    ensures NoDuplicates(Notes(AddMissing(anims, notes, now)))
    decreases |notes|
  {
    if |notes| > 0 {
      AddMissingNoDuplicates(Grow(anims, notes[0], now), notes[1..], now);
    }
  }

  /** The loop run over all but the last note, then one more step for the last. */
  lemma {:induction false} AddMissingSnoc(anims: seq<Anim>, notes: seq<string>, now: real)
    requires |notes| > 0
    ensures AddMissing(anims, notes, now)
         == Grow(AddMissing(anims, notes[..|notes| - 1], now), notes[|notes| - 1], now)
    decreases |notes|
  {
    var init := notes[..|notes| - 1];
    if |notes| > 1 {
      var grown := Grow(anims, notes[0], now);
      AddMissingSnoc(grown, notes[1..], now);
      assert init[0] == notes[0];
      assert init[1..] == notes[1..][..|notes[1..]| - 1];
      assert notes[1..][|notes[1..]| - 1] == notes[|notes| - 1];
    }
  }

  /**
   * On animations with distinct notes, the loop leaves exactly the notes of
   * `new Set([...old, ...sounding])`: the old ones, then each sounding note no
   * animation had, once, in the order it first sounds.
   */
  lemma {:induction false} AddMissingIsDedup(anims: seq<Anim>, notes: seq<string>, now: real)
    requires NoDuplicates(Notes(anims))
    ensures Notes(AddMissing(anims, notes, now)) == Dedup(Notes(anims) + notes)
    decreases |notes|
  {
    var have := Notes(anims);
    if |notes| == 0 {
      assert have + notes == have;
      DedupOfDistinct(have);
    } else {
      var init := notes[..|notes| - 1];
      var x := notes[|notes| - 1];
      var a := AddMissing(anims, init, now);
      AddMissingSnoc(anims, notes, now);
      assert AddMissing(anims, notes, now) == Grow(a, x, now);
      AddMissingIsDedup(anims, init, now);
      assert Notes(a) == Dedup(have + init);
      AppendSnoc(have, notes);
      DedupSnoc(have + init, x);
    }
  }

  /** Whether an animation's note is among the sounding notes (`activeNotes.includes`). */
  function IsActive(notes: seq<string>): Anim -> bool {
    (a: Anim) => a.note in notes
  }

  function InList(notes: seq<string>): string -> bool {
    (x: string) => x in notes
  }

  lemma {:induction false} NotesFilter(anims: seq<Anim>, notes: seq<string>)
    ensures Notes(Filter(anims, IsActive(notes))) == Filter(Notes(anims), InList(notes))
    decreases |anims|
  {
    if |anims| > 0 {
      NotesFilter(anims[1..], notes);
      FilterCons(anims, IsActive(notes));
      FilterCons(Notes(anims), InList(notes));
      var head := if IsActive(notes)(anims[0]) then [anims[0]] else [];
      NotesAppend(head, Filter(anims[1..], IsActive(notes)));
    }
  }

  /**
   * The effect on `activeNotes`: missing notes are added, then animations
   * whose note is no longer sounding are dropped.
   */
  function Sync(anims: seq<Anim>, notes: seq<string>, now: real): (r: seq<Anim>)
    // afterwards there is an animation for exactly the sounding notes
    ensures forall x :: x in Notes(r) <==> x in notes
    ensures NoDuplicates(Notes(anims)) ==> NoDuplicates(Notes(r))
    // the surviving animations come first, unchanged and in their old order
    ensures var kept := Filter(anims, IsActive(notes));
      |kept| <= |r| && r[..|kept|] == kept
    // the rest are new, start now, and are for notes that had no animation
    ensures AddedAreNew(Filter(anims, IsActive(notes)), r, notes, now)
    // and they follow the order in which their notes first sound
    ensures NoDuplicates(Notes(anims)) ==>
      var kept := Filter(anims, IsActive(notes));
      |kept| <= |r| && Dedup(Notes(anims) + notes) == Notes(anims) + Notes(r[|kept|..])
  {
    var grown := AddMissing(anims, notes, now);
    SyncSplit(anims, notes, now);
    AddedAnims(anims, notes, now);
    KeptAddedAreNew(anims, grown, notes, now);
    NotesFilter(grown, notes);
    AddMissingNotes(anims, notes, now);
    SyncNoDuplicates(anims, notes, now);
    SyncNewInOrder(anims, notes, now);
    Filter(grown, IsActive(notes))
  }

  lemma SyncNewInOrder(anims: seq<Anim>, notes: seq<string>, now: real)
    ensures NoDuplicates(Notes(anims)) ==>
      var kept := Filter(anims, IsActive(notes));
      var r := Filter(AddMissing(anims, notes, now), IsActive(notes));
      |kept| <= |r| && Dedup(Notes(anims) + notes) == Notes(anims) + Notes(r[|kept|..])
  {
    if NoDuplicates(Notes(anims)) {
      var grown := AddMissing(anims, notes, now);
      var added := grown[|anims|..];
      var kept := Filter(anims, IsActive(notes));
      SyncSplit(anims, notes, now);
      assert (kept + added)[|kept|..] == added;
      assert grown == anims + added;
      NotesAppend(anims, added);
      AddMissingIsDedup(anims, notes, now);
    }
  }

  lemma SyncNoDuplicates(anims: seq<Anim>, notes: seq<string>, now: real)
    ensures NoDuplicates(Notes(anims)) ==>
      NoDuplicates(Notes(Filter(AddMissing(anims, notes, now), IsActive(notes))))
  {
    var grown := AddMissing(anims, notes, now);
    if NoDuplicates(Notes(anims)) {
      AddMissingNoDuplicates(anims, notes, now);
      FilterPreservesNoDuplicates(Notes(grown), InList(notes));
      NotesFilter(grown, notes);
    }
  }

  /** After the loop, dropping silent notes only touches the animations that were there before. */
  lemma SyncSplit(anims: seq<Anim>, notes: seq<string>, now: real)
    ensures var grown := AddMissing(anims, notes, now);
      Filter(grown, IsActive(notes)) == Filter(anims, IsActive(notes)) + grown[|anims|..]
  {
    var grown := AddMissing(anims, notes, now);
    var added := grown[|anims|..];
    assert grown == anims + added;
    AddedAnims(anims, notes, now);
    AddedAllActive(anims, grown, notes, now);
    FilterAppend(anims, added, IsActive(notes));
    FilterKeepsAll(added, IsActive(notes));
  }

  lemma AddedAllActive(anims: seq<Anim>, grown: seq<Anim>, notes: seq<string>, now: real)
    requires |anims| <= |grown| && AddedAreNew(anims, grown, notes, now)
    ensures forall i :: 0 <= i < |grown[|anims|..]| ==> IsActive(notes)(grown[|anims|..][i])
  {
    forall i | 0 <= i < |grown[|anims|..]| ensures IsActive(notes)(grown[|anims|..][i]) {
      assert grown[|anims|..][i] == grown[|anims| + i];
    }
  }

  lemma KeptAddedAreNew(anims: seq<Anim>, grown: seq<Anim>, notes: seq<string>, now: real)
    requires |anims| <= |grown| && AddedAreNew(anims, grown, notes, now)
    ensures AddedAreNew(Filter(anims, IsActive(notes)), Filter(anims, IsActive(notes)) + grown[|anims|..], notes, now)
  {
    var kept := Filter(anims, IsActive(notes));
    var r := kept + grown[|anims|..];
    NotesFilter(anims, notes);
    assert forall x :: x in Notes(kept) ==> x in Notes(anims);
    forall i | |kept| <= i < |r|
      ensures r[i].startTime == now && r[i].note in notes && r[i].note !in Notes(kept)
    {
      assert r[i] == grown[i - |kept| + |anims|];
    }
  }

  /** The same effect as the loop the component runs, over a growing list. */
  method SyncAnimations(anims: seq<Anim>, notes: seq<string>, now: real) returns (r: seq<Anim>)
    ensures r == Sync(anims, notes, now)
    ensures forall x :: x in Notes(r) <==> x in notes
  {
    var acc := anims;
    var i := 0;
    while i < |notes|
      invariant 0 <= i <= |notes|
      invariant AddMissing(acc, notes[i..], now) == AddMissing(anims, notes, now)
    {
      assert notes[i..][1..] == notes[i + 1..];
      if notes[i] !in Notes(acc) {
        acc := acc + [Anim(notes[i], now)];
      }
      i := i + 1;
    }
    assert notes[i..] == [];
    r := Filter(acc, IsActive(notes));
  }

  /** A note that keeps sounding keeps its animation, with its start time. */
  lemma SyncKeepsRunningAnimation(anims: seq<Anim>, notes: seq<string>, now: real, a: Anim)
    requires a in anims && a.note in notes
    ensures a in Sync(anims, notes, now)
  {
    var kept := Filter(anims, IsActive(notes));
    var r := Sync(anims, notes, now);
    assert a in kept;
    assert r[..|kept|] == kept;
  }

  // ---------------------------------------------------------------------------
  // One animation frame

  /** Milliseconds an animation takes to cross the staff. */
  const Duration: real := 2000.0

  function Progress(timestamp: real, a: Anim): real {
    (timestamp - a.startTime) / Duration
  }

  /** The animations whose progress has reached 1 are dropped; the others stay, in order. */
  function Expire(anims: seq<Anim>, timestamp: real): (r: seq<Anim>)
    ensures forall a :: a in r <==> a in anims && Progress(timestamp, a) < 1.0
    ensures forall a :: a in r <==> a in anims && a.startTime > timestamp - Duration
    ensures forall a :: multiset(r)[a] == if Progress(timestamp, a) < 1.0 then multiset(anims)[a] else 0
    ensures IsSubsequence(r, anims)
  {
    FilterIsSubsequence(anims, (a: Anim) => Progress(timestamp, a) < 1.0);
    Filter(anims, (a: Anim) => Progress(timestamp, a) < 1.0)
  }

  /** Full opacity for the first seven eighths of the way, then a linear fade. */
  function Opacity(progress: real): (o: real)
    ensures progress < 0.875 ==> o == 1.0
    ensures progress >= 0.875 ==> o == 8.0 * (1.0 - progress)
    ensures progress < 1.0 ==> 0.0 < o <= 1.0
    ensures progress >= 1.0 ==> o <= 0.0
  {
    if progress < 0.875 then 1.0 else 1.0 - (progress - 0.875) / 0.125
  }

  /** Later in the crossing never means more opaque. */
  lemma OpacityFades(p: real, q: real)
    requires p <= q
    ensures Opacity(q) <= Opacity(p)
  {
  }

  /** What a frame keeps and the opacity it draws each kept animation at. */
  function Frame(anims: seq<Anim>, timestamp: real): (r: (seq<Anim>, seq<real>))
    ensures r.0 == Expire(anims, timestamp)
    ensures |r.1| == |r.0|
    ensures forall i :: 0 <= i < |r.0| ==> r.1[i] == Opacity(Progress(timestamp, r.0[i])) && 0.0 < r.1[i] <= 1.0
  {
    var kept := Expire(anims, timestamp);
    (kept, seq(|kept|, i requires 0 <= i < |kept| => Opacity(Progress(timestamp, kept[i]))))
  }

  // ---------------------------------------------------------------------------
  // Where a note is drawn

  /** Half-line steps of each note name, sharps and flats alike. */
  const NotePositions: map<string, int> := map[
    "C" := 6, "C#" := 7, "Db" := 7, "D" := 8, "D#" := 9, "Eb" := 9, "E" := 10,
    "F" := -2, "F#" := -1, "Gb" := -1, "G" := 0, "G#" := 1, "Ab" := 1,
    "A" := 2, "A#" := 3, "Bb" := 3, "B" := 4
  ]

  /** The sharp and flat spellings of the same pitch class. */
  const Enharmonics: set<(string, string)> := {("C#", "Db"), ("D#", "Eb"), ("F#", "Gb"), ("G#", "Ab"), ("A#", "Bb")}

  function LeadingDigits(s: string): (r: string)
    ensures AllDigits(r) && r <= s
    ensures |r| < |s| ==> !IsDigit(s[|r|])
  {
    if |s| == 0 || !IsDigit(s[0]) then "" else [s[0]] + LeadingDigits(s[1..])
  }

  predicate NoDigits(s: string) {
    forall i :: 0 <= i < |s| ==> !IsDigit(s[i])
  }

  /**
   * `note.split(/(\d+)/)` keeping its first two parts: the text before the
   * first digit, and the run of digits there (empty when the note has none,
   * where JavaScript gives `undefined`).
   */
  function SplitNote(note: string): (r: (string, string))
    ensures NoDigits(r.0) && AllDigits(r.1)
    ensures r.0 + r.1 <= note
    ensures |r.0 + r.1| < |note| ==> !IsDigit(note[|r.0 + r.1|])
    ensures |r.1| == 0 ==> r.0 == note
  {
    if |note| == 0 then ("", "")
    else if IsDigit(note[0]) then ("", LeadingDigits(note))
    else
      var rest := SplitNote(note[1..]);
      ([note[0]] + rest.0, rest.1)
  }

  /** A digit-free name followed by a digit run splits back into the two. */
  lemma {:induction false} SplitNoteOf(name: string, octave: string)
    requires NoDigits(name) && AllDigits(octave) && |octave| > 0
    ensures SplitNote(name + octave) == (name, octave)
    decreases |name|
  {
    if |name| == 0 {
      assert name + octave == octave;
      LeadingDigitsAll(octave);
    } else {
      var note := name + octave;
      assert note[0] == name[0] && !IsDigit(note[0]);
      assert note[1..] == name[1..] + octave;
      SplitNoteOf(name[1..], octave);
      assert [name[0]] + name[1..] == name;
    }
  }

  lemma {:induction false} LeadingDigitsAll(s: string)
    requires AllDigits(s)
    ensures LeadingDigits(s) == s
    decreases |s|
  {
    if |s| > 0 {
      LeadingDigitsAll(s[1..]);
    }
  }

  /** Pixels between staff lines in the note drawing. */
  const LineSpacing: real := 10.0

  /**
   * The height of a note at staff position `position` in `octave` on a
   * canvas `height` high: the staff is centred, a position step is half a
   * line spacing, and an octave three and a half.
   */
  function NoteY(height: real, position: int, octave: int): (y: real)
    ensures y == height / 2.0 + 20.0 - 5.0 * (position as real) - 35.0 * ((octave as real) - 4.0)
  {
    var staffHeight := LineSpacing * 4.0;
    var startY := (height - staffHeight) / 2.0;
    startY + staffHeight - (position as real) * LineSpacing / 2.0 - ((octave as real) - 4.0) * 3.5 * LineSpacing
  }

  /**
   * `drawNote`'s vertical position, or `None` when nothing is drawn: an
   * unknown note name, or no octave (where the source computes NaN).
   */
  function StaffY(height: real, note: string): (y: Option<real>)
    ensures y.Some? <==> SplitNote(note).0 in NotePositions && |SplitNote(note).1| > 0
    ensures y.Some? ==> y.value == NoteY(height, NotePositions[SplitNote(note).0], DecimalToNat(SplitNote(note).1))
  {
    var (name, octave) := SplitNote(note);
    if name !in NotePositions || |octave| == 0 then None
    else Some(NoteY(height, NotePositions[name], DecimalToNat(octave)))
  }

  /** A known name followed by an octave number is drawn at that name's position in that octave. */
  lemma StaffYOf(height: real, name: string, octave: nat)
    requires name in NotePositions && NoDigits(name)
    ensures StaffY(height, name + NatToDecimal(octave)) == Some(NoteY(height, NotePositions[name], octave))
  {
    SplitNoteOf(name, NatToDecimal(octave));
    DecimalRoundTrip(octave);
  }

  /** One octave up is 3.5 line spacings higher on the canvas. */
  lemma OctaveUp(height: real, name: string, octave: nat)
    requires name in NotePositions && NoDigits(name)
    ensures StaffY(height, name + NatToDecimal(octave)).Some?
    ensures StaffY(height, name + NatToDecimal(octave + 1)).Some?
    ensures StaffY(height, name + NatToDecimal(octave + 1)).value
         == StaffY(height, name + NatToDecimal(octave)).value - 3.5 * LineSpacing
  {
    StaffYOf(height, name, octave);
    StaffYOf(height, name, octave + 1);
  }

  /** Sharp and flat spellings of a pitch are drawn at the same height. */
  lemma EnharmonicsShareLine(height: real, sharp: string, flat: string, octave: nat)
    requires (sharp, flat) in Enharmonics
    ensures StaffY(height, sharp + NatToDecimal(octave)).Some?
    ensures StaffY(height, sharp + NatToDecimal(octave)) == StaffY(height, flat + NatToDecimal(octave))
  {
    assert sharp in NotePositions && flat in NotePositions;
    assert NotePositions[sharp] == NotePositions[flat];
    assert NoDigits(sharp) && NoDigits(flat);
    StaffYOf(height, sharp, octave);
    StaffYOf(height, flat, octave);
  }

  /** A name outside the table, or a note without an octave, is not drawn. */
  lemma UnknownNotesNotDrawn(height: real, name: string, octave: string)
    requires NoDigits(name) && AllDigits(octave)
    requires name !in NotePositions || octave == ""
    ensures StaffY(height, name + octave) == None
  {
    if |octave| > 0 {
      SplitNoteOf(name, octave);
    } else {
      assert name + octave == name;
      NoDigitsSplit(name);
    }
  }

  lemma {:induction false} NoDigitsSplit(s: string)
    requires NoDigits(s)
    ensures SplitNote(s) == (s, "")
    decreases |s|
  {
    if |s| > 0 {
      NoDigitsSplit(s[1..]);
    }
  }
}
