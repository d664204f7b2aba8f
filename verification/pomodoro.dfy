/**
 * The pomodoro timer: a countdown that alternates between a work period and
 * a break, with preset or custom lengths, a `mm:ss` display and a progress
 * bar.
 *
 * The one-second interval is modelled as a `Tick` event and the zero-delay
 * mode switch as part of the tick at zero. Settings storage is a parameter.
 */
module Pomodoro {
  import opened Common
  import opened Text

  datatype Mode = Work | Break

  /** Period lengths in seconds and the preset they came from (`"25/5"`, `"50/10"`, `"90/20"`, `"custom"`). */
  datatype Settings = Settings(workTime: int, breakTime: int, preset: string)

  datatype Timer = Timer(
    settings: Settings,
    timeLeft: int,
    active: bool,
    mode: Mode,
    customWorkTime: int,
    customBreakTime: int,
    dialogOpen: bool)

  const DefaultSettings: Settings := Settings(50 * 60, 10 * 60, "50/10")

  /** The length of the period `mode` under `settings`. */
  function PeriodLength(settings: Settings, mode: Mode): int {
    match mode
    case Work => settings.workTime
    case Break => settings.breakTime
  }

  /**
   * `loadSettings`: no saved value (or an empty one) gives the defaults;
   * otherwise the saved value is decoded. The decoding is not guarded, so a
   * value that does not parse makes loading fail, shown as `None`.
   */
  function LoadSettings(saved: Option<string>, parse: string -> Option<Settings>): (r: Option<Settings>)
    ensures saved.None? || saved == Some("") ==> r == Some(DefaultSettings)
    ensures saved.Some? && saved.value != "" ==> r == parse(saved.value)
  {
    if saved.None? || saved.value == "" then Some(DefaultSettings) else parse(saved.value)
  }

  /** The first render: the loaded settings, a stopped work period, the custom sliders in minutes. */
  function Initial(settings: Settings): (t: Timer)
    ensures t.settings == settings && t.timeLeft == settings.workTime
    ensures !t.active && t.mode == Work && !t.dialogOpen
    ensures settings.workTime >= 0 ==> t.customWorkTime * 60 <= settings.workTime < (t.customWorkTime + 1) * 60
  {
    Timer(settings, settings.workTime, false, Work, settings.workTime / 60, settings.breakTime / 60, false)
  }

  /** What every timer reached from sane settings satisfies. */
  predicate Valid(t: Timer) {
    && t.settings.workTime >= 0 && t.settings.breakTime >= 0
    && 0 <= t.timeLeft <= PeriodLength(t.settings, t.mode)
    && t.customWorkTime >= 0 && t.customBreakTime >= 0
  }

  // ---------------------------------------------------------------------------
  // Ticking

  function Other(m: Mode): (o: Mode)
    ensures o != m
  {
    if m == Work then Break else Work
  }

  /** One second of the timer effect. */
  function Tick(t: Timer): (r: Timer)
    // a stopped timer never changes
    ensures !t.active ==> r == t
    // a running timer counts down by one second
    ensures t.active && t.timeLeft > 0 ==> r == t.(timeLeft := t.timeLeft - 1)
    // at zero it switches period and starts the other period from its full length
    ensures t.active && t.timeLeft == 0 ==>
      r == t.(mode := Other(t.mode), timeLeft := PeriodLength(t.settings, Other(t.mode)))
    ensures r.active == t.active && r.settings == t.settings
  {
    if t.active && t.timeLeft > 0 then t.(timeLeft := t.timeLeft - 1)
    else if t.active && t.timeLeft == 0 then
      var next := if t.mode == Work then Break else Work;
      t.(mode := next, timeLeft := if next == Work then t.settings.workTime else t.settings.breakTime)
    else t
  }

  /** `toggleTimer`: only the running flag flips. */
  function Toggle(t: Timer): (r: Timer)
    ensures r.active == !t.active && r.(active := t.active) == t
  {
    t.(active := !t.active)
  }

  /** `resetTimer`: stopped, in a work period, with the full work time left. */
  function Reset(t: Timer): (r: Timer)
    ensures !r.active && r.mode == Work && r.timeLeft == r.settings.workTime
    ensures r.settings == t.settings && r.customWorkTime == t.customWorkTime
      && r.customBreakTime == t.customBreakTime && r.dialogOpen == t.dialogOpen
  {
    t.(active := false, mode := Work, timeLeft := t.settings.workTime)
  }

  // ---------------------------------------------------------------------------
  // Presets

  /** The `switch` of `applyPreset`; an unknown value falls back to the defaults. */
  function PresetSettings(preset: string, customWorkTime: int, customBreakTime: int): (s: Settings)
    ensures preset == "custom" ==> s == Settings(customWorkTime * 60, customBreakTime * 60, "custom")
    ensures preset !in {"25/5", "50/10", "90/20", "custom"} ==> s == DefaultSettings
    ensures preset in {"25/5", "50/10", "90/20", "custom"} ==> s.preset == preset
  {
    if preset == "25/5" then Settings(25 * 60, 5 * 60, preset)
    else if preset == "50/10" then Settings(50 * 60, 10 * 60, preset)
    else if preset == "90/20" then Settings(90 * 60, 20 * 60, preset)
    else if preset == "custom" then Settings(customWorkTime * 60, customBreakTime * 60, "custom")
    else DefaultSettings
  }

  /** The three fixed presets, in seconds. */
  lemma PresetTable()
    ensures PresetSettings("25/5", 0, 0) == Settings(1500, 300, "25/5")
    ensures PresetSettings("50/10", 0, 0) == Settings(3000, 600, "50/10")
    ensures PresetSettings("90/20", 0, 0) == Settings(5400, 1200, "90/20")
    ensures DefaultSettings == PresetSettings("50/10", 0, 0)
  {
  }

  /** `applyPreset`: new settings, and a stopped work period from its full length. */
  function ApplyPreset(t: Timer, preset: string): (r: Timer)
    ensures r.settings == PresetSettings(preset, t.customWorkTime, t.customBreakTime)
    ensures !r.active && r.mode == Work && r.timeLeft == r.settings.workTime
    ensures r.dialogOpen == (if preset == "custom" then false else t.dialogOpen)
    ensures r.customWorkTime == t.customWorkTime && r.customBreakTime == t.customBreakTime
  {
    var settings := PresetSettings(preset, t.customWorkTime, t.customBreakTime);
    t.(settings := settings, active := false, mode := Work, timeLeft := settings.workTime,
       dialogOpen := if preset == "custom" then false else t.dialogOpen)
  }

  /**
   * `handlePresetChange`: choosing a fixed preset applies it at once;
   * choosing "custom" only marks the settings as custom and waits for the
   * Apply button.
   */
  function HandlePresetChange(t: Timer, value: string): (r: Timer)
    ensures value != "custom" ==> r == ApplyPreset(t, value)
    ensures value == "custom" ==> r == t.(settings := t.settings.(preset := "custom"))
  {
    if value != "custom" then ApplyPreset(t, value)
    else t.(settings := t.settings.(preset := "custom"))
  }

  /** The custom work slider: 5 to 120 minutes in steps of 5. */
  predicate WorkSliderValue(m: int) {
    5 <= m <= 120 && m % 5 == 0
  }

  /** The custom break slider: 1 to 30 minutes. */
  predicate BreakSliderValue(m: int) {
    1 <= m <= 30
  }

  function SetCustomTimes(t: Timer, workMinutes: int, breakMinutes: int): (r: Timer)
    requires WorkSliderValue(workMinutes) && BreakSliderValue(breakMinutes)
    ensures r.customWorkTime == workMinutes && r.customBreakTime == breakMinutes
    ensures r.(customWorkTime := t.customWorkTime, customBreakTime := t.customBreakTime) == t
  {
    t.(customWorkTime := workMinutes, customBreakTime := breakMinutes)
  }

  /** Custom settings applied from the sliders are 5 to 120 minutes of work and 1 to 30 of break. */
  lemma CustomSettingsInRange(t: Timer, workMinutes: int, breakMinutes: int)
    requires WorkSliderValue(workMinutes) && BreakSliderValue(breakMinutes)
    ensures var s := ApplyPreset(SetCustomTimes(t, workMinutes, breakMinutes), "custom").settings;
      300 <= s.workTime <= 7200 && s.workTime % 300 == 0 && 60 <= s.breakTime <= 1800
  {
  }

  /** Every event keeps a valid timer valid. */
  lemma EventsPreserveValid(t: Timer, preset: string, workMinutes: int, breakMinutes: int)
    requires Valid(t)
    ensures Valid(Tick(t)) && Valid(Toggle(t)) && Valid(Reset(t)) && Valid(HandlePresetChange(t, preset))
    ensures WorkSliderValue(workMinutes) && BreakSliderValue(breakMinutes) ==>
      Valid(SetCustomTimes(t, workMinutes, breakMinutes))
  {
  }

  // ---------------------------------------------------------------------------
  // Display

  /** `n.toString().padStart(2, "0")`. */
  function Pad2(n: nat): (r: string)
    ensures AllDigits(r) && |r| >= 2
    ensures n < 100 ==> |r| == 2
  {
    if n < 10 then "0" + NatToDecimal(n) else NatToDecimal(n)
  }

  /** `formatTime`: whole minutes, a colon, and the remaining seconds, each at least two digits. */
  function FormatTime(seconds: nat): (r: string)
    ensures |r| >= 5 && r[|r| - 3] == ':'
    ensures seconds < 6000 ==> |r| == 5
  {
    assert seconds < 6000 ==> seconds / 60 < 100;
    Pad2(seconds / 60) + ":" + Pad2(seconds % 60)
  }

  /** Reads a `mm:ss` display back as a number of seconds. */
  function ParseClock(r: string): Option<nat> {
    if |r| >= 4 && r[|r| - 3] == ':' && AllDigits(r[..|r| - 3]) && AllDigits(r[|r| - 2..]) then
      var secs := DecimalToNat(r[|r| - 2..]);
      if secs < 60 then Some(60 * DecimalToNat(r[..|r| - 3]) + secs) else None
    else None
  }

  lemma {:induction false} LeadingZero(s: string)
    requires AllDigits(s)
    ensures AllDigits("0" + s) && DecimalToNat("0" + s) == DecimalToNat(s)
    decreases |s|
  {
    if |s| > 0 {
      LeadingZero(s[..|s| - 1]);
      assert ("0" + s)[..|"0" + s| - 1] == "0" + s[..|s| - 1];
    }
  }

  lemma Pad2Value(n: nat)
    ensures DecimalToNat(Pad2(n)) == n
  {
    DecimalRoundTrip(n);
    if n < 10 {
      LeadingZero(NatToDecimal(n));
    }
  }

  /** The display determines the time: minutes times 60 plus a seconds field below 60. */
  lemma FormatTimeRoundTrip(seconds: nat)
    ensures ParseClock(FormatTime(seconds)) == Some(seconds)
  {
    var m, s := Pad2(seconds / 60), Pad2(seconds % 60);
    var r := FormatTime(seconds);
    assert r == m + ":" + s;
    assert r[..|r| - 3] == m;
    assert r[|r| - 2..] == s;
    Pad2Value(seconds / 60);
    Pad2Value(seconds % 60);
  }

  /** `calculateProgress`: the percentage of the current period already elapsed. */
  function Progress(total: int, timeLeft: int): (p: real)
    ensures total <= 0 ==> p == 0.0
    ensures total > 0 && timeLeft == total ==> p == 0.0
    ensures total > 0 && timeLeft == 0 ==> p == 100.0
    ensures 0 <= timeLeft <= total ==> 0.0 <= p <= 100.0
  {
    if total > 0 then
      var p := ((total - timeLeft) as real / total as real) * 100.0;
      ProgressBounds(total, timeLeft);
      p
    else 0.0
  }

  lemma ProgressBounds(total: int, timeLeft: int)
    requires total > 0
    ensures 0 <= timeLeft <= total ==> 0.0 <= ((total - timeLeft) as real / total as real) * 100.0 <= 100.0
  {
    var q := (total - timeLeft) as real / total as real;
    assert q * total as real == (total - timeLeft) as real;
    if 0 <= timeLeft <= total {
      if q < 0.0 { NegativeTimesPositive(q, total as real); }
      if q > 1.0 { NegativeTimesPositive(1.0 - q, total as real); }
    }
  }

  lemma NegativeTimesPositive(a: real, b: real)
    requires a < 0.0 && b > 0.0
    ensures a * b < 0.0
  {
  }

  /** The progress of the current period of a timer. */
  function TimerProgress(t: Timer): real {
    Progress(PeriodLength(t.settings, t.mode), t.timeLeft)
  }

  /** A running tick never moves the bar back within one period. */
  lemma TickAdvancesProgress(t: Timer)
    requires Valid(t) && t.active && t.timeLeft > 0
    ensures TimerProgress(Tick(t)) >= TimerProgress(t)
  {
    var total := PeriodLength(t.settings, t.mode);
    var d := total as real;
    var a := (total - t.timeLeft) as real / d;
    var b := (total - (t.timeLeft - 1)) as real / d;
    assert a * d == (total - t.timeLeft) as real && b * d == (total - t.timeLeft + 1) as real;
    if b < a {
      NegativeTimesPositive(b - a, d);
      assert (b - a) * d == b * d - a * d;
    }
  }
}
