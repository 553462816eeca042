/** The simulation option bag: the built-in defaults overlaid by the loaded
    options, and the live time and score written back over them when the
    simulation is saved. Times are stored as `hh:mm:ss` strings. */
module Options {
  import opened Common
  import Clock

  /** A JSON scalar stored in the option bag. */
  datatype Value = Str(s: string) | Int(i: int) | Real(r: real)

  type OptionBag = map<string, Value>

  /** `BUILTIN_OPTIONS`; `fileFormat` is the package's file format version,
      defined outside this model. */
  function BuiltinOptions(fileFormat: Value): (o: OptionBag)
    ensures o.Keys == {"title", "description", "version", "timeFactor", "currentTime",
                       "warningSpeed", "currentScore", "defaultMaxSpeed", "defaultMinimumStopTime",
                       "defaultDelayAtEntry", "trackCircuitBased", "defaultSignalVisibility"}
    ensures o["version"] == fileFormat
    ensures "currentTime" in o && o["currentTime"] == Str("06:00:00")
    ensures "timeFactor" in o && o["timeFactor"] == Int(5)
    ensures "currentScore" in o && o["currentScore"] == Int(0)
  {
    map[
      "title" := Str(""),
      "description" := Str(""),
      "version" := fileFormat,
      "timeFactor" := Int(5),
      "currentTime" := Str("06:00:00"),
      "warningSpeed" := Real(8.3),
      "currentScore" := Int(0),
      "defaultMaxSpeed" := Real(44.44),
      "defaultMinimumStopTime" := Str("[(45,75,70),(75,90,30)]"),
      "defaultDelayAtEntry" := Str("[(-60,0,50),(0,60,50)]"),
      "trackCircuitBased" := Int(0),
      "defaultSignalVisibility" := Int(100)
    ]
  }

  /** The constructor's option overlay: defaults first, loaded options over them. */
  function MergeOptions(fileFormat: Value, given: OptionBag): (o: OptionBag)
    ensures o.Keys == BuiltinOptions(fileFormat).Keys + given.Keys
    ensures forall k :: k in given ==> o[k] == given[k]
    ensures forall k :: k in BuiltinOptions(fileFormat) && k !in given ==> o[k] == BuiltinOptions(fileFormat)[k]
  {
    BuiltinOptions(fileFormat) + given
  }

  /** `option(key)`: `None` for an unknown key. */
  function GetOption(o: OptionBag, key: string): (r: Option<Value>)
    ensures r.Some? <==> key in o
    ensures r.Some? ==> r.value == o[key]
  {
    if key in o then Some(o[key]) else None
  }

  // ---------------------------------------------------------------------
  // hh:mm:ss

  function Digit(d: int): char
    requires 0 <= d < 10
  {
    ('0' as int + d) as char
  }

  function DigitValue(c: char): Option<int> {
    if '0' <= c <= '9' then Some(c as int - '0' as int) else None
  }

  function TwoDigits(n: int): (s: string)
    requires 0 <= n < 100
    ensures |s| == 2
  {
    [Digit(n / 10), Digit(n % 10)]
  }

  function ParseTwoDigits(a: char, b: char): Option<int> {
    match (DigitValue(a), DigitValue(b))
    case (Some(x), Some(y)) => Some(10 * x + y)
    case _ => None
  }

  /** `QTime.toString("hh:mm:ss")` of a time of day in milliseconds; the
      milliseconds are dropped. */
  function FormatTime(t: int): (s: string)
    requires 0 <= t < Clock.MsPerDay
    ensures |s| == 8 && s[2] == ':' && s[5] == ':'
  {
    var secs := t / 1000;
    TwoDigits(secs / 3600) + ":" + TwoDigits(secs / 60 % 60) + ":" + TwoDigits(secs % 60)
  }

  /** `QTime.fromString(s, "hh:mm:ss")`: `None` stands for an invalid time. */
  function ParseTime(s: string): (t: Option<int>)
    ensures t.Some? ==> 0 <= t.value < Clock.MsPerDay && t.value % 1000 == 0
  {
    if |s| != 8 || s[2] != ':' || s[5] != ':' then None
    else match (ParseTwoDigits(s[0], s[1]), ParseTwoDigits(s[3], s[4]), ParseTwoDigits(s[6], s[7]))
      case (Some(h), Some(m), Some(sec)) =>
        if h < 24 && m < 60 && sec < 60 then Some(((h * 60 + m) * 60 + sec) * 1000) else None
      case _ => None
  }

  lemma TwoDigitsRoundTrip(n: int)
    requires 0 <= n < 100
    ensures ParseTwoDigits(TwoDigits(n)[0], TwoDigits(n)[1]) == Some(n)
  {
  }

  lemma ParseJoined(h: int, m: int, sec: int)
    requires 0 <= h < 24 && 0 <= m < 60 && 0 <= sec < 60
    ensures ParseTime(TwoDigits(h) + ":" + TwoDigits(m) + ":" + TwoDigits(sec)) == Some(((h * 60 + m) * 60 + sec) * 1000)
  {
    TwoDigitsRoundTrip(h);
    TwoDigitsRoundTrip(m);
    TwoDigitsRoundTrip(sec);
    var s := TwoDigits(h) + ":" + TwoDigits(m) + ":" + TwoDigits(sec);
    assert s[0] == TwoDigits(h)[0] && s[1] == TwoDigits(h)[1];
    assert s[3] == TwoDigits(m)[0] && s[4] == TwoDigits(m)[1];
    assert s[6] == TwoDigits(sec)[0] && s[7] == TwoDigits(sec)[1];
  }

  lemma SplitSeconds(secs: int)
    requires 0 <= secs < 86_400
    ensures 0 <= secs / 3600 < 24 && 0 <= secs / 60 % 60 < 60 && 0 <= secs % 60 < 60
    ensures (secs / 3600 * 60 + secs / 60 % 60) * 60 + secs % 60 == secs
  {
    var q := secs / 60;
    assert q / 60 == secs / 3600;
    assert q == q / 60 * 60 + q % 60;
    assert secs == q * 60 + secs % 60;
  }

  /** Writing a time and reading it back keeps it to the whole second. */
  lemma TimeRoundTrip(t: int)
    requires 0 <= t < Clock.MsPerDay
    ensures ParseTime(FormatTime(t)) == Some(t - t % 1000)
  {
    var secs := t / 1000;
    SplitSeconds(secs);
    ParseJoined(secs / 3600, secs / 60 % 60, secs % 60);
    assert secs * 1000 == t - t % 1000;
  }

  /** The default start time. */
  lemma DefaultStartTime()
    ensures ParseTime("06:00:00") == Some(21_600_000)
  {
    assert ParseTwoDigits('0', '6') == Some(6);
    assert ParseTwoDigits('0', '0') == Some(0);
  }

  // ---------------------------------------------------------------------
  // The running game: options, clock and score

  /** The state `initialize`, `setTimeFactor`, `timerOut` and `for_json`
      share: the option bag, the simulated clock and the scorer's score. */
  datatype Session = Session(options: OptionBag, clock: Clock.Clock, score: int)

  /** The clock runs at the factor the `timeFactor` option holds: `timerOut`
      reads the factor from the options on every tick. */
  predicate InSync(s: Session) {
    "timeFactor" in s.options && s.options["timeFactor"] == Int(s.clock.factor)
  }

  /** The start time `initialize` reads from the options: `None` when the
      option is missing, not a string, or not a valid `hh:mm:ss` time. */
  function LoadedTime(o: OptionBag): (r: Option<int>)
    ensures r.Some? ==> 0 <= r.value < Clock.MsPerDay && r.value % 1000 == 0
    ensures r.Some? ==> "currentTime" in o && o["currentTime"].Str?
  {
    match GetOption(o, "currentTime")
    case Some(Str(s)) => ParseTime(s)
    case _ => None
  }

  /** `initialize`: the clock starts at the stored time with the stored factor
      and the timer running, and the score is the stored score. `None` stands
      for options the model does not start from (an invalid time, or a factor
      or score that is not an integer). */
  function Start(o: OptionBag): (s: Option<Session>)
    ensures s.Some? <==>
      && LoadedTime(o).Some?
      && "timeFactor" in o && o["timeFactor"].Int?
      && "currentScore" in o && o["currentScore"].Int?
    ensures s.Some? ==>
      && s.value.options == o
      && InSync(s.value)
      && Clock.Valid(s.value.clock)
      && s.value.clock.running
      && s.value.clock.time == LoadedTime(o).value
      && o["currentScore"] == Int(s.value.score)
  {
    match (LoadedTime(o), GetOption(o, "timeFactor"), GetOption(o, "currentScore"))
    case (Some(t), Some(Int(f)), Some(Int(sc))) => Some(Session(o, Clock.Clock(t, f, true), sc))
    case _ => None
  }

  /** `setTimeFactor(tf)` on the whole state: the clock is stopped, the factor
      clamped to 10 is recorded with `setOption`, and the timer restarts unless
      `tf` is 0. No other option changes. */
  function SetTimeFactor(s: Session, tf: int): (r: Session)
    ensures InSync(r)
    ensures r.clock == Clock.SetTimeFactor(s.clock, tf)
    ensures r.options.Keys == s.options.Keys + {"timeFactor"}
    ensures forall k :: k in s.options && k != "timeFactor" ==> r.options[k] == s.options[k]
    ensures r.score == s.score
  {
    var stored := if tf <= Clock.MaxTimeFactor then tf else Clock.MaxTimeFactor;
    Session(s.options["timeFactor" := Int(stored)], Clock.SetTimeFactor(s.clock, tf), s.score)
  }

  /** A timer tick on the whole state: only the clock moves, so the factor
      option still describes it. */
  function Tick(s: Session): (r: Session)
    requires Clock.Valid(s.clock)
    ensures InSync(s) ==> InSync(r)
    ensures r.options == s.options && r.score == s.score
    ensures r.clock == Clock.TimerOut(s.clock).clock
  {
    s.(clock := Clock.TimerOut(s.clock).clock)
  }

  /** `for_json`'s option overlay on a copy of the options: the context is
      always the game, so the current time and score always replace the
      stored ones. The factor is saved because it is one of the options. */
  function SaveOptions(s: Session): (saved: OptionBag)
    requires Clock.Valid(s.clock)
    ensures saved.Keys == s.options.Keys + {"currentTime", "currentScore"}
    ensures saved["currentTime"] == Str(FormatTime(s.clock.time))
    ensures saved["currentScore"] == Int(s.score)
    ensures forall k :: k in s.options && k != "currentTime" && k != "currentScore" ==> saved[k] == s.options[k]
    ensures InSync(s) ==> saved["timeFactor"] == Int(s.clock.factor)
  {
    s.options["currentTime" := Str(FormatTime(s.clock.time))]["currentScore" := Int(s.score)]
  }

  /** Without stored options the simulation starts at 06:00:00, at factor 5,
      with the timer running and a score of 0. */
  lemma DefaultOptionsStartAtSix(fileFormat: Value)
    ensures LoadedTime(MergeOptions(fileFormat, map[])) == Some(21_600_000)
    ensures var s := Start(MergeOptions(fileFormat, map[]));
      s.Some? && s.value.clock == Clock.Clock(21_600_000, 5, true) && s.value.score == 0
  {
    DefaultStartTime();
  }

  /** A factor changed during the game is the factor written to the save. */
  lemma SavedFactorFollowsSetTimeFactor(s: Session, tf: int)
    requires Clock.Valid(s.clock)
    ensures SaveOptions(SetTimeFactor(s, tf))["timeFactor"] == Int(if tf <= 10 then tf else 10)
  {
  }

  /** Saving then loading: merging the defaults into the saved bag changes
      nothing (every default key is already present), and the reloaded game
      resumes with the same factor and score, at the saved time truncated to
      the whole second, with the timer running. */
  lemma SaveLoadRoundTrip(fileFormat: Value, s: Session)
    requires Clock.Valid(s.clock) && InSync(s)
    requires BuiltinOptions(fileFormat).Keys <= s.options.Keys
    ensures var saved := SaveOptions(s);
      && MergeOptions(fileFormat, saved) == saved
      && Start(saved) == Some(Session(saved, Clock.Clock(s.clock.time - s.clock.time % 1000, s.clock.factor, true), s.score))
  {
    var saved := SaveOptions(s);
    assert MergeOptions(fileFormat, saved) == saved;
    TimeRoundTrip(s.clock.time);
    assert LoadedTime(saved) == Some(s.clock.time - s.clock.time % 1000);
  }
}
