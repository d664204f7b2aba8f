# egxo-toolbox widgets in Dafny

This project models the state logic of the egxo-toolbox widgets. Each widget is a set of immutable datatypes and pure event handlers. The widgets are:

- the colour-palette generator's accessibility report: contrast ratios between test shades, WCAG levels, the ranked list split into passing and failing, and the JSON export;
- the typing test: the game state machine, the styling of the quote, and the ten-entry leaderboard;
- the pomodoro timer and its task list;
- the YouTube focus playlist;
- the synthesizer's keyboard map and sounding-note list;
- the staff animation under the synthesizer;
- live speech transcription.

Browser services are either parameters or return values of the handlers:

- The clock, `Math.random`, `localStorage` contents and `JSON.parse` are parameters.
- Colour luminance, video-id extraction and the palette generator are parameters too.
- What a handler asks of Tone.js, the YouTube IFrame player or the speech recogniser is returned as a value (`Sound`, `Call`, or the list of player `Command`s in the order they are issued).

Shared pieces:

- `Seqs` is order-preserving filtering and de-duplication.
- `Text` is trimming, lower-casing onto Basic Latin letters and decimal digits.
- `StableSort` is a stable insertion sort. Both `Array.prototype.sort` calls rely on it: the palette ranking and the leaderboard.

Two choices follow the code rather than a looser reading of the widget:

- The report uses the six test shades 50, 100, 200, 500, 700 and 900, so it holds at most 15 pairs.
- Luminance is only assumed non-negative.

Two behaviours of the code are worth knowing:

- The staff table wraps at F, so F4 is drawn below E4.
- A final speech result that is only whitespace still adds an empty entry to the transcript history.

## Model

| member | source | states |
|---|---|---|
| Contrast.ContrastRatio | components/tools/palette/palette-generator.tsx:32-38 | the ratio of the lighter to the darker luminance, each offset by 0.05, is at least 1, and is 1 exactly when the two luminances are equal |
| Contrast.ContrastSymmetric | components/tools/palette/palette-generator.tsx:32-38 | the order in which the two colours are given does not change the ratio |
| Contrast.ContrastAtMost21 | components/tools/palette/palette-generator.tsx:32-38 | for luminances in [0, 1] the ratio never exceeds 21 (white on black) |
| Contrast.ContrastGrowsWithLighter | components/tools/palette/palette-generator.tsx:32-38 | making the lighter colour lighter never lowers the ratio |
| Contrast.Classify | components/tools/palette/palette-generator.tsx:40-51 | AAA from 7, AA from 4.5, AA Large from 3, Fail below; each level holds exactly on its band, and a pair passes exactly when the ratio is at least 3 |
| Contrast.ClassifyMonotone | components/tools/palette/palette-generator.tsx:40-51 | a higher ratio never gets a weaker level, and it passes whenever a lower one does |
| Contrast.ClassifyBoundaries | components/tools/palette/palette-generator.tsx:40-51 | each threshold is inclusive: 7, 4.5 and 3 reach their level, and values just below them do not |
| Palette.TestIndexTested | components/tools/palette/palette-generator.tsx:30 | a shade position is among the six test shades exactly when its index in the test list is below 6 |
| Palette.FindNone | components/tools/palette/palette-generator.tsx:59-65 | `find` yields nothing exactly when no shade has the requested position |
| Palette.FindFirst | components/tools/palette/palette-generator.tsx:59-65 | `find` returns the first shade with the requested position |
| Palette.MakeScore | components/tools/palette/palette-generator.tsx:67-75 | a scored pair keeps its background and foreground, has a ratio of at least 1, and passes exactly when the ratio is at least 3 |
| Palette.PairCountFormula | components/tools/palette/palette-generator.tsx:58-77 | the nested loop over n test positions visits n(n-1)/2 pairs |
| Palette.PairsLength | components/tools/palette/palette-generator.tsx:58-77 | the loops starting at a background index yield PairCount(k) pairs, where k is how many test shades from that index on the palette contains |
| Palette.PairsAtMost15 | components/tools/palette/palette-generator.tsx:58-77 | the enumeration never yields more than 15 pairs, whichever shades are missing |
| Palette.PairsComplete | components/tools/palette/palette-generator.tsx:58-77 | every two present test shades, lower position first, are enumerated as background and foreground |
| Palette.PairsInOrder | components/tools/palette/palette-generator.tsx:58-77 | pairs come out by background test index, then by foreground test index |
| Palette.ComputeScores | components/tools/palette/palette-generator.tsx:53-80 | the report has at most 15 entries; each pairs the shades `find` returns for two test positions, the background's strictly earlier in the test list, with the ratio, level and verdict computed for them; ratios never increase along the report, and it is a permutation of the scored enumeration, so a missing position contributes no pairs |
| Palette.ScoresComplete | components/tools/palette/palette-generator.tsx:53-80 | every two present test shades appear in the report as a background/foreground pair |
| Palette.FifteenScores | components/tools/palette/palette-generator.tsx:53-80 | a palette holding all six test shades gets exactly 15 scores |
| Palette.ScoresStable | components/tools/palette/palette-generator.tsx:79 | the sort is stable: scores with equal ratios keep their enumeration order |
| Palette.ScoresRanked | components/tools/palette/palette-generator.tsx:53-80 | the report is sorted by ratio and each entry's pass flag agrees with its ratio |
| Palette.PassingThenFailing | components/tools/palette/palette-generator.tsx:163-171 | on a ranked report, the passing list followed by the failing list is the report itself; passing entries have a ratio of at least 3 and failing ones below 3 |
| Palette.Export | components/tools/palette/palette-generator.tsx:113-120 | the exported object has a key for each shade position and no other keys |
| Palette.ExportLastWins | components/tools/palette/palette-generator.tsx:113-120 | when two shades share a position, the later one's hex is exported |
| Palette.ExportDistinct | components/tools/palette/palette-generator.tsx:113-120 | with distinct positions every shade's hex is exported under its position |
| Palette.Render | components/tools/palette/palette-generator.tsx:163-171 | for slider values in range, the page shows the generated shades, the ranked report computed from them (at most 15 scores), and that report split by its two filters into passing (ratio at least 3) and failing (below 3) parts that together make it up |
| TypingGame.DropLast | hooks/use-typing-game.ts:79-85 | Backspace removes exactly the last character, and does nothing to empty input |
| TypingGame.PickQuote | hooks/use-typing-game.ts:7-10 | the chosen quote is one of the quotes, or empty when there are none |
| TypingGame.InitialGame | hooks/use-typing-game.ts:13-21 | the first render is a valid, unstarted game on the first quote |
| TypingGame.InitGame | hooks/use-typing-game.ts:32-47 | a reset gives a valid game on one of the quotes with no input, full accuracy, and neither started nor finished |
| TypingGame.MatchCount | hooks/use-typing-game.ts:94-100 | the count of typed characters matching the quote at their index equals the input length exactly when every typed character matches |
| TypingGame.CountCorrect | hooks/use-typing-game.ts:94-100 | the counting loop computes the number of matching characters |
| TypingGame.Accuracy | hooks/use-typing-game.ts:94-105 | accuracy lies in 0..100 and is 100 exactly when no typed character is wrong |
| TypingGame.AccuracyBounds | hooks/use-typing-game.ts:101-104 | the percentage of c correct out of n lies in 0..100 and reaches 100 only when c equals n |
| TypingGame.Start | hooks/use-typing-game.ts:74-77 | the first key records the start time and marks the game started; later keys leave both alone |
| TypingGame.Step | hooks/use-typing-game.ts:70-130 | a finished game ignores keys; any key starts an unstarted game; Backspace drops one character; a single character within the quote is appended and the game finishes when the quote is fully typed; other keys only start the game |
| TypingGame.StepPreservesValid | hooks/use-typing-game.ts:70-130 | position equals input length, stays within the quote, accuracy stays in range, and finished means the quote is fully typed, for every key |
| TypingGame.FinishesAtEnd | hooks/use-typing-game.ts:107-118 | a typed character finishes the game exactly when it reaches the end of the quote |
| TypingGame.BackspaceUndoesType | hooks/use-typing-game.ts:79-92 | typing a character and then Backspace restores the input and the position |
| TypingGame.AccuracyOf | hooks/use-typing-game.ts:94-105 | the handler's loop followed by the percentage gives the accuracy, in 0..100 |
| TypingGame.HandleKeyDown | components/tools/typing/typing-test.tsx:266-275 | modifier keys, Tab and Escape never reach the game; every other key does |
| TypingGame.IgnoredKeysAreNotCharacters | components/tools/typing/typing-test.tsx:266-275 | none of the filtered keys is a single character or Backspace |
| TypingArea.StyleAt | components/tools/typing/typing-area.tsx:102-115 | a character is pending exactly when not yet typed, correct exactly when typed equal to the quote, and mistyped otherwise |
| TypingArea.Styles | components/tools/typing/typing-area.tsx:102-115 | one style per quote character, in order |
| TypingArea.StylesAgreeWithAccuracy | components/tools/typing/typing-area.tsx:102-115 | the characters shown as correct are exactly those the accuracy counts, and the pending ones are the untyped rest |
| TypingArea.CursorPlacement | components/tools/typing/typing-area.tsx:30-51 | the cursor sits on a character while the position is inside the quote, after the last one at its end, and is hidden otherwise |
| TypingArea.CursorOnFirstPending | components/tools/typing/typing-area.tsx:30-51 | during a game the cursor stands on the first pending character, with all earlier characters typed and all later ones pending |
| TypingArea.EmptyQuoteHidesCursor | components/tools/typing/typing-area.tsx:30-51 | an empty quote shows no characters and no cursor |
| Leaderboard.EntryAheadIsStrictWeakOrder | hooks/use-leaderboard.ts:42-49 | the comparator on words per minute, then accuracy, then timestamp is a strict weak order |
| Leaderboard.TiedEntries | hooks/use-leaderboard.ts:42-49 | two entries compare equal exactly when all three ranked fields agree |
| Leaderboard.Load | hooks/use-leaderboard.ts:7-17 | a missing, empty or unparsable stored value gives an empty board; otherwise the parsed entries |
| Leaderboard.AddEntry | hooks/use-leaderboard.ts:35-56 | the saved board holds min(10, stored+1) entries drawn from the new and stored ones, ranked best first |
| Leaderboard.DroppedRankNoHigher | hooks/use-leaderboard.ts:42-49 | every entry cut by the top-ten truncation ranks no higher than each kept entry |
| Leaderboard.NewEntryRank | hooks/use-leaderboard.ts:42-49 | the new entry lands behind exactly the stored entries that outrank it, or is dropped when ten or more do |
| Leaderboard.Submit | hooks/use-leaderboard.ts:35-56 | a submission shows the updated board and marks the score submitted |
| Leaderboard.Clear | hooks/use-leaderboard.ts:58-63 | clearing empties the board and leaves the submitted flag |
| Leaderboard.ResetSubmission | hooks/use-leaderboard.ts:65-67 | only the submitted flag is cleared |
| Leaderboard.Refresh | hooks/use-leaderboard.ts:69-71 | the board is reloaded from storage and the submitted flag kept |
| Leaderboard.BoardStaysRanked | hooks/use-leaderboard.ts:35-67 | a submission shows a board ranked best first with at most ten entries; clearing and resetting the flag keep that |
| Leaderboard.RefreshShowsSaved | hooks/use-leaderboard.ts:7-71 | a refresh after a submission shows exactly the board that was saved, still ranked, given a serialiser that parsing inverts |
| Leaderboard.RefreshAfterClear | hooks/use-leaderboard.ts:58-71 | after clearing, the stored value is gone and a refresh still shows an empty board |
| TypingTest.GameReset | components/tools/typing/typing-test.tsx:277-281 | the reset button gives a fresh valid game on one of the quotes, clears the submitted flag and reloads the board |
| Pomodoro.LoadSettings | components/tools/pomodoro/pomodoro-timer.tsx:39-43 | nothing saved gives the 50/10 defaults; a saved value is decoded, and decoding can fail |
| Pomodoro.Initial | components/tools/pomodoro/pomodoro-timer.tsx:46-59 | a stopped work period with its full time left, and the custom sliders showing whole minutes |
| Pomodoro.Tick | components/tools/pomodoro/pomodoro-timer.tsx:70-94 | a stopped timer never changes; a running one counts down one second, and at zero switches to the other period at its full length |
| Pomodoro.Toggle | components/tools/pomodoro/pomodoro-timer.tsx:96-98 | start/pause flips the running flag and nothing else |
| Pomodoro.Reset | components/tools/pomodoro/pomodoro-timer.tsx:100-104 | reset stops in a work period with the full work time left and keeps the settings |
| Pomodoro.PresetSettings | components/tools/pomodoro/pomodoro-timer.tsx:120-154 | custom uses the slider minutes; an unknown preset falls back to the defaults; a known one keeps its name |
| Pomodoro.PresetTable | components/tools/pomodoro/pomodoro-timer.tsx:120-154 | the three fixed presets are 25/5, 50/10 and 90/20 minutes, and the defaults equal 50/10 |
| Pomodoro.ApplyPreset | components/tools/pomodoro/pomodoro-timer.tsx:120-154 | applying a preset installs its settings, stops in a work period at its full length, and closes the dialog for custom |
| Pomodoro.HandlePresetChange | components/tools/pomodoro/pomodoro-timer.tsx:157-165 | a fixed preset applies at once; custom only relabels the settings |
| Pomodoro.SetCustomTimes | components/tools/pomodoro/pomodoro-timer.tsx:229-249 | the sliders set only the two custom fields |
| Pomodoro.CustomSettingsInRange | components/tools/pomodoro/pomodoro-timer.tsx:229-249 | custom settings from the sliders are 5 to 120 minutes of work in 5-minute steps and 1 to 30 minutes of break |
| Pomodoro.EventsPreserveValid | components/tools/pomodoro/pomodoro-timer.tsx:70-165 | every event keeps the time left between 0 and the current period's length |
| Pomodoro.Pad2 | components/tools/pomodoro/pomodoro-timer.tsx:106-112 | padding gives at least two digits, exactly two below 100 |
| Pomodoro.FormatTime | components/tools/pomodoro/pomodoro-timer.tsx:106-112 | the display is minutes, a colon and two seconds digits, five characters below 100 minutes |
| Pomodoro.FormatTimeRoundTrip | components/tools/pomodoro/pomodoro-timer.tsx:106-112 | reading the display back as minutes and seconds gives the number of seconds shown |
| Pomodoro.Progress | components/tools/pomodoro/pomodoro-timer.tsx:114-118 | the elapsed percentage is 0 at the start of a period, 100 at its end, within 0..100 in between, and 0 for a period of no length |
| Pomodoro.TickAdvancesProgress | components/tools/pomodoro/pomodoro-timer.tsx:70-118 | a running tick within a period never moves the progress bar back |
| TaskList.Load | components/tools/pomodoro/task-list.tsx:15-24 | nothing stored, or a value that does not parse, gives no tasks; otherwise the parsed list |
| TaskList.Add | components/tools/pomodoro/task-list.tsx:35-46 | a draft that is blank after trimming is ignored; otherwise one open task with the untrimmed text and the clock's id is appended and the box cleared |
| TaskList.KeyUp | components/tools/pomodoro/task-list.tsx:60-64 | only Enter adds a task |
| TaskList.Toggle | components/tools/pomodoro/task-list.tsx:48-54 | exactly the tasks with the given id flip their completed flag; ids, texts and order are kept |
| TaskList.ToggleTwice | components/tools/pomodoro/task-list.tsx:48-54 | toggling the same id twice restores the list |
| TaskList.ToggleUnknown | components/tools/pomodoro/task-list.tsx:48-54 | an id no task has changes nothing |
| TaskList.Remove | components/tools/pomodoro/task-list.tsx:56-58 | removal keeps exactly the tasks with another id, in their order and with all their copies |
| TaskList.RemoveUndoesAdd | components/tools/pomodoro/task-list.tsx:35-58 | removing a task just added under a fresh id gives back the old list |
| TaskList.AddKeepsIdsDistinct | components/tools/pomodoro/task-list.tsx:35-46 | adding under a fresh id keeps ids distinct |
| TaskList.ToggleKeepsIdsDistinct | components/tools/pomodoro/task-list.tsx:48-54 | toggling keeps ids distinct |
| TaskList.RemoveKeepsIdsDistinct | components/tools/pomodoro/task-list.tsx:56-58 | removal keeps ids distinct |
| YouTubePlaylist.JsRem | components/focus/youtube-player.tsx:92 | JavaScript's remainder agrees with the mathematical one on non-negative dividends and is never positive on negative ones |
| YouTubePlaylist.VolumeLevel | components/focus/youtube-player.tsx:83 | the player is given the slider volume, or 0 when sound is off |
| YouTubePlaylist.LoadAndPlay | components/focus/youtube-player.tsx:68-88 | the player is asked to load a video exactly when the index names a track, the player is ready and the track's URL has a video id; it then loads that id and sets the volume, in that order |
| YouTubePlaylist.Next | components/focus/youtube-player.tsx:90-95 | the next track follows the current one and wraps from the last to the first; an empty list is left alone |
| YouTubePlaylist.Previous | components/focus/youtube-player.tsx:300-306 | the previous track precedes the current one; from the first, or from none, it is the last |
| YouTubePlaylist.NextPreviousInverse | components/focus/youtube-player.tsx:90-306 | with a current track, next and previous undo each other |
| YouTubePlaylist.PlayNext | components/focus/youtube-player.tsx:90-95 | an empty list changes nothing and asks nothing; otherwise the player lands on a track and, when it can, loads exactly the track now current |
| YouTubePlaylist.PlayPrevious | components/focus/youtube-player.tsx:300-306 | as for next, one track back: the track now current is the one loaded |
| YouTubePlaylist.PlayNextThenPrevious | components/focus/youtube-player.tsx:90-306 | next then previous returns to the same playlist state and reloads the track that was current |
| YouTubePlaylist.Remove | components/focus/youtube-player.tsx:249-276 | the track leaves the list; removing the current track stops a ready player and playback and keeps the index within the shorter list; removing an earlier track moves the index back one, a later one leaves it, and either keeps the same track current and asks nothing of the player |
| YouTubePlaylist.TrackTitle | components/focus/youtube-player.tsx:226-247 | a fetched title is used unless empty; otherwise a placeholder with the first 8 characters of the video id |
| YouTubePlaylist.Add | components/focus/youtube-player.tsx:226-247 | a blank URL or one without a video id is ignored; otherwise the track is appended, the box cleared, and the first track of an empty list becomes current |
| YouTubePlaylist.TogglePlay | components/focus/youtube-player.tsx:278-298 | an empty list does nothing; with no current track the first is selected; otherwise a ready player is paused or played according to the playing flag |
| YouTubePlaylist.AutoLoad | components/focus/youtube-player.tsx:308-317 | after the index or the list length changes, a ready player loads the current track when there is one and it has a video id |
| YouTubePlaylist.ToggleSelectsThenLoads | components/focus/youtube-player.tsx:278-317 | pressing play with no track selected selects the first, and the effect then loads that track |
| YouTubePlaylist.VolumeEffect | components/focus/youtube-player.tsx:319-331 | a volume change reaches the player only when it is ready, and sets the current volume |
| YouTubePlaylist.MutedPlayerStaysSilent | components/focus/youtube-player.tsx:83-331 | with sound off, every volume set on load, on ready or on a volume change is 0 |
| YouTubePlaylist.OnReady | components/focus/youtube-player.tsx:106-125 | the page's video is loaded when its URL has an id, the volume is always set, and the first track is selected if the list has tracks and none is selected |
| YouTubePlaylist.OnStateChange | components/focus/youtube-player.tsx:127-148 | PLAYING sets the flag; PAUSED, BUFFERING, UNSTARTED and ENDED clear it; ENDED plays the next track unless the page handles it; other states change nothing and ask nothing |
| YouTubePlaylist.CuedKeepsPlaying | components/focus/youtube-player.tsx:127-148 | CUED never changes the playing flag |
| YouTubePlaylist.OnError | components/focus/youtube-player.tsx:150-153 | an error keeps the list, the playing flag and the URL box and moves to the following track, from the last to the first; the player is asked for something exactly when it is ready and that track has a video id, and then loads exactly that track |
| YouTubePlaylist.ErrorOnLastWraps | components/focus/youtube-player.tsx:90-153 | an error on the last track moves to the first |
| Synth.KeyMapInjective | components/synth/synth-player.tsx:131-152 | no two keys of the layout play the same note |
| Synth.NoteOf | components/synth/synth-player.tsx:227-250 | a key plays a note exactly when its lower-cased name is in the layout |
| Synth.NoteOfIgnoresCase | components/synth/synth-player.tsx:227-250 | Shift or Caps Lock does not change the note a key plays |
| Synth.KelvinSignPlaysC5 | components/synth/synth-player.tsx:227-236 | a key event named by the Kelvin sign lower-cases to k and plays C5, like the k key |
| Synth.Initial | components/synth/synth-player.tsx:180-189 | nothing held, nothing sounding, and every effect slider at 0 |
| Synth.WithNote | components/synth/synth-player.tsx:210-216 | the sounding list gains the note once, stays free of duplicates, and is unchanged when the note already sounds |
| Synth.WithoutNote | components/synth/synth-player.tsx:218-224 | every copy of the note leaves the list and every other note keeps its place, order and number of copies |
| Synth.WithoutUndoesWith | components/synth/synth-player.tsx:210-224 | releasing a note just started restores the sounding list |
| Synth.NoteOn | components/synth/synth-player.tsx:210-216 | once the engine exists the note is attacked and listed, and the staff animation is re-keyed |
| Synth.NoteOff | components/synth/synth-player.tsx:218-224 | once the engine exists the note is released and unlisted, and the staff animation is re-keyed |
| Synth.KeyDown | components/synth/synth-player.tsx:227-236 | auto-repeat, unmapped keys and a missing engine are ignored; otherwise the key is held and its note attacked and listed |
| Synth.KeyUp | components/synth/synth-player.tsx:238-250 | a mapped key is released and its note unlisted, whether or not it was held |
| Synth.HandlersPreserveValid | components/synth/synth-player.tsx:210-250 | every handler keeps the sounding list duplicate-free and holds only mapped keys |
| Synth.KeyRepeatIgnored | components/synth/synth-player.tsx:227-236 | a second keydown of the same key changes nothing and sounds nothing |
| Synth.KeyEventsIgnoreCase | components/synth/synth-player.tsx:227-250 | upper- and lower-case key events behave the same |
| Synth.KeyUpUndoesKeyDown | components/synth/synth-player.tsx:227-250 | pressing and releasing a free key whose note was silent restores the state |
| Synth.EngineValue | components/synth/synth-player.tsx:261-301 | cutoff is scaled by 10000, reverb decay by 10, the others passed through; a slider in [0, 1] gives a value in [0, scale] |
| Synth.EngineValueMonotone | components/synth/synth-player.tsx:261-301 | the engine value orders and distinguishes slider positions exactly as the sliders do |
| Synth.SetKnob | components/synth/synth-player.tsx:261-301 | once the engine exists the slider shows the value and the engine receives the scaled one; before that nothing happens |
| Visualizer.Grow | components/synth/audio-visualizer.tsx:162-170 | a note gets an animation starting now only when no animation has it |
| Visualizer.AddedAnims | components/synth/audio-visualizer.tsx:160-171 | the animations the loop adds start now and are for sounding notes that had none |
| Visualizer.AddMissingNotes | components/synth/audio-visualizer.tsx:160-171 | after the loop the animated notes are the old ones plus the sounding ones |
| Visualizer.AddMissingNoDuplicates | components/synth/audio-visualizer.tsx:160-171 | the loop never gives a note a second animation |
| Visualizer.AddMissingIsDedup | components/synth/audio-visualizer.tsx:160-171 | on animations with distinct notes, the loop leaves exactly the notes of new Set([...old, ...sounding]) in that order |
| Visualizer.Sync | components/synth/audio-visualizer.tsx:160-175 | afterwards exactly the sounding notes are animated, once each; surviving animations come first unchanged, new ones start now and follow the order in which their notes first sound |
| Visualizer.SyncAnimations | components/synth/audio-visualizer.tsx:160-175 | the loop over a growing list computes the same animations, one for each sounding note |
| Visualizer.SyncKeepsRunningAnimation | components/synth/audio-visualizer.tsx:160-175 | a note that keeps sounding keeps its animation and start time |
| Visualizer.Expire | components/synth/audio-visualizer.tsx:128-147 | a frame keeps, in order and with their copies, exactly the animations that started less than two seconds ago |
| Visualizer.Opacity | components/synth/audio-visualizer.tsx:141 | fully opaque for the first seven eighths of the crossing, then fading linearly to 0 at the end |
| Visualizer.OpacityFades | components/synth/audio-visualizer.tsx:141 | later in the crossing is never more opaque |
| Visualizer.Frame | components/synth/audio-visualizer.tsx:128-147 | each kept animation is drawn at an opacity in (0, 1] |
| Visualizer.SplitNote | components/synth/audio-visualizer.tsx:61 | the note splits into the digit-free text before its first digit and the digit run there |
| Visualizer.SplitNoteOf | components/synth/audio-visualizer.tsx:61 | a name followed by an octave number splits back into the two |
| Visualizer.StaffY | components/synth/audio-visualizer.tsx:54-72 | a note is drawn exactly when its name is in the table and it has an octave, at the height for that position and octave |
| Visualizer.StaffYOf | components/synth/audio-visualizer.tsx:54-72 | a known name with an octave number is drawn at that name's position in that octave |
| Visualizer.OctaveUp | components/synth/audio-visualizer.tsx:65-72 | one octave up is three and a half line spacings higher |
| Visualizer.EnharmonicsShareLine | components/synth/audio-visualizer.tsx:10-28 | sharp and flat spellings of a pitch are drawn at the same height |
| Visualizer.UnknownNotesNotDrawn | components/synth/audio-visualizer.tsx:54-72 | a name outside the table, or a note without an octave, is not drawn |
| Transcribe.Mount | components/tools/transcribe/transcribe-live.tsx:103-125 | with a recogniser the widget is ready and silent; without one it shows the unsupported message, the iOS one on iOS |
| Transcribe.Language | components/tools/transcribe/transcribe-live.tsx:130 | the recogniser's language is the first selected one, or en-US when there is none or it is empty |
| Transcribe.FinalOfNonEmpty | components/tools/transcribe/transcribe-live.tsx:136-144 | the final text is non-empty exactly when some pending result is final |
| Transcribe.FoldResults | components/tools/transcribe/transcribe-live.tsx:136-144 | the loop from the result index collects the final and the interim transcripts |
| Transcribe.OnResult | components/tools/transcribe/transcribe-live.tsx:132-158 | a batch with a final result appends one trimmed entry and clears the interim line; otherwise only the interim line changes; the history stays well formed |
| Transcribe.SingleFinalResult | components/tools/transcribe/transcribe-live.tsx:132-158 | a batch of one final result records exactly its trimmed transcript |
| Transcribe.BlankFinalAddsEmptyEntry | components/tools/transcribe/transcribe-live.tsx:146-154 | a whitespace-only final result still adds an entry, with empty text |
| Transcribe.InterimReplaces | components/tools/transcribe/transcribe-live.tsx:155-157 | interim results replace the interim line rather than extend it |
| Transcribe.OnError | components/tools/transcribe/transcribe-live.tsx:160-171 | no-speech and aborted are ignored; any other error is shown and stops listening |
| Transcribe.OnEnd | components/tools/transcribe/transcribe-live.tsx:173-182 | the recogniser is restarted exactly when the widget still wants to listen |
| Transcribe.Toggle | components/tools/transcribe/transcribe-live.tsx:211-243 | with no recogniser only an error shows; listening stops; otherwise the error and interim line are cleared and listening begins only if the start succeeds |
| Transcribe.OnEndAfterStop | components/tools/transcribe/transcribe-live.tsx:160-243 | after the user stops, or a real error stops listening, the end event does not restart the recogniser; after a start it restarts exactly when the start succeeded; benign errors leave the restart decision as it was |
| Transcribe.ToggleTwiceKeepsHistory | components/tools/transcribe/transcribe-live.tsx:211-243 | stopping and starting again keeps the history |
| Transcribe.Clear | components/tools/transcribe/transcribe-live.tsx:245-249 | clearing empties the history and the interim line and nothing else |
| Transcribe.HistoryOnlyGrows | components/tools/transcribe/transcribe-live.tsx:132-243 | results only extend the history; errors, restarts and the toggle keep it |

## Left out

- TypingGame.Accuracy: computed exactly as `100 * correct / length` rounded down. The source uses `Math.floor((correct / length) * 100)` in floating point, which can be one lower. For example, 29 out of 100 gives 28.
- Words per minute and the clock that drives it are not modelled. Start times are kept as opaque readings.
- `ToLower` maps A-Z and U+212A KELVIN SIGN to their lower-case Basic Latin letters and leaves every other character unchanged. JavaScript's `toLowerCase` also changes other non-ASCII letters, but none of those becomes a layout key, so the note a key plays is the same.
- JavaScript measures `key.length` in UTF-16 code units. The model counts characters.
- Colour conversion is not modelled, because it is floating-point colour arithmetic outside the accessibility logic:
  - luminance, assumed only non-negative;
  - hex/HSL parsing;
  - the shade generator, which is a parameter.
- Floating-point numbers are modelled as exact reals: contrast ratios, progress, opacity, slider values and note heights.
- React mechanics are outside the model. These are effects, refs, memoisation and re-renders. Events are applied one at a time as pure functions.
- `localStorage` reads and writes are outside the model. Stored values and `JSON.parse` are parameters. A parse that throws is `None`.
- Malformed stored JSON is not modelled: records with missing or NaN fields, and stored values that are not arrays.
- The server-side `typeof window` branches are not modelled.
- The YouTube IFrame API itself is outside the model. The widget's requests to it (load, volume, play, pause, stop) are returned as commands; the `typeof … === "function"` guards are taken to hold.
- When React runs the auto-load and volume effects is not modelled. `AutoLoad` and `VolumeEffect` give what each asks for when it runs.
- Extracting a video id with a regular expression and fetching a title over the network are parameters.
- The race between `addItem`'s awaited title fetch and later edits is not modelled.
- Painting the canvases is left out: the horizontal position of notes, the staff lines and the waveform.
- A note without an octave gives NaN in the source. Such a note is `None` in the model and is not drawn.
- The Tone.js engine, the pitch-shift control and the analyser are outside the model.
- The speech recognition object is outside the model:
  - results are reduced to their first alternative and the final flag;
  - a language change re-creating the recogniser is modelled only by `Transcribe.Language`.
- `isListening` and `isListeningRef` are modelled as one flag.
- Visualizer.AddMissing and Visualizer.Grow: all notes added by one update share one `now`. The source reads `performance.now()` once per note, so their start times can differ by the microseconds the loop takes.
- Transcribe.OnResult: the entry's id and its timestamp come from one clock reading. The source calls `Date.now()` twice, so the two can differ by a millisecond.
- Transcript and task ids are clock readings in milliseconds. Two created within one millisecond collide, so id-distinctness lemmas assume a fresh id.
- The typing page repeats the leaderboard and game hooks inline (components/tools/typing/typing-test.tsx). The inline copies behave like the hooks and are covered by the same members.
- YouTubePlaylist.JsRem: only the sign and range of the remainder are stated for negative dividends. The playlist only takes remainders of indices of at least 0.
