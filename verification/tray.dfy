/** The pure parts of the system tray in src/tray.rs: the duration text
    and the status shown by the icon and the title. */
module Tray {
  import opened Wrappers
  import opened Text

  /** Whole hours of `secs`, as Rust's `secs / 3600` on `i64`. */
  function Hours(secs: int): (h: int)
    ensures secs >= 0 ==> h * 3600 <= secs < h * 3600 + 3600
    ensures secs >= 0 ==> (h > 0 <==> secs >= 3600)
    ensures secs < 0 ==> h <= 0
  {
    TDiv(secs, 3600)
  }

  /** Minutes past the hour, as Rust's `(secs % 3600) / 60`. */
  function Minutes(secs: int): (m: int)
    ensures secs >= 0 ==> 0 <= m < 60 && Hours(secs) * 60 + m == secs / 60
    ensures secs < 0 ==> -60 < m <= 0
  {
    TDiv(TRem(secs, 3600), 60)
  }

  /** `format_duration`: "Xh Ym" when there is at least one whole hour,
      otherwise "Ym". */
  function FormatDuration(secs: int): (r: string)
    ensures |r| >= 2 && r[|r| - 1] == 'm'
    ensures 'h' in r <==> Hours(secs) > 0
    ensures secs >= 0 ==> ('h' in r <==> secs >= 3600)
    ensures 0 <= secs < 60 ==> r == "0m"
  {
    var h := Hours(secs);
    var m := Minutes(secs);
    if h > 0 then
      var r := IntToString(h) + "h " + IntToString(m) + "m";
      assert r[|IntToString(h)|] == 'h';
      r
    else
      var r := IntToString(m) + "m";
      assert forall k :: 0 <= k < |r| - 1 ==> r[k] == '-' || IsAsciiDigit(r[k]);
      assert 'h' !in r;
      r
  }

  /** Reads a duration text back as a number of minutes: "Ym" or
      "Xh Ym" with decimal X and Y. */
  function ReadDuration(r: string): (mins: Option<nat>)
    ensures mins.Some? ==> |r| >= 2 && r[|r| - 1] == 'm'
  {
    if |r| == 0 || r[|r| - 1] != 'm' then None else ReadClock(r[..|r| - 1])
  }

  /** The part before the final 'm'. */
  function ReadClock(body: string): (mins: Option<nat>)
    ensures mins.Some? ==> |body| > 0
  {
    match Find(body, 'h')
    case None =>
      if |body| > 0 && AllDigits(body) then Some(DigitsValue(body)) else None
    case Some(i) =>
      var hs := body[..i];
      var rest := body[i + 1..];
      if |hs| > 0 && AllDigits(hs) && |rest| > 1 && rest[0] == ' ' && AllDigits(rest[1..])
      then Some(DigitsValue(hs) * 60 + DigitsValue(rest[1..]))
      else None
  }

  lemma NoHInDigits(s: string)
    requires AllDigits(s)
    ensures 'h' !in s
  {
    forall k | 0 <= k < |s| ensures s[k] != 'h' {
      assert IsAsciiDigit(s[k]);
    }
  }

  /** The pieces `ReadDuration` cuts an "Xh Ym" text into. */
  lemma HoursMinutesPieces(hs: string, ms: string, body: string)
    requires AllDigits(hs) && body == hs + "h " + ms
    ensures Find(body, 'h') == Some(|hs|)
    ensures body[..|hs|] == hs && body[|hs| + 1..] == " " + ms
  {
    assert body[|hs|] == 'h';
    assert body[..|hs|] == hs;
    NoHInDigits(hs);
    FindAt(body, 'h', |hs|);
    assert body[|hs| + 1..] == " " + ms;
  }

  lemma ReadHoursMinutes(hs: string, ms: string, r: string)
    requires |hs| > 0 && AllDigits(hs) && |ms| > 0 && AllDigits(ms)
    requires r == hs + "h " + ms + "m"
    ensures ReadDuration(r) == Some(DigitsValue(hs) * 60 + DigitsValue(ms))
  {
    var body := hs + "h " + ms;
    assert r[..|r| - 1] == body;
    ReadClockHoursMinutes(hs, ms, body);
  }

  lemma ReadClockHoursMinutes(hs: string, ms: string, body: string)
    requires |hs| > 0 && AllDigits(hs) && |ms| > 0 && AllDigits(ms)
    requires body == hs + "h " + ms
    ensures ReadClock(body) == Some(DigitsValue(hs) * 60 + DigitsValue(ms))
  {
    HoursMinutesPieces(hs, ms, body);
    var rest := body[|hs| + 1..];
    assert rest == " " + ms && rest[1..] == ms;
    ReadClockAt(body, |hs|);
    assert DigitsValue(body[..|hs|]) == DigitsValue(hs) && DigitsValue(rest[1..]) == DigitsValue(ms);
  }

  /** `ReadClock` on a body whose first 'h' sits at `i`, with digits
      before it and a space and digits after it. */
  lemma ReadClockAt(body: string, i: nat)
    requires i < |body| && Find(body, 'h') == Some(i)
    requires i > 0 && AllDigits(body[..i])
    requires |body[i + 1..]| > 1 && body[i + 1..][0] == ' ' && AllDigits(body[i + 1..][1..])
    ensures ReadClock(body) == Some(DigitsValue(body[..i]) * 60 + DigitsValue(body[i + 1..][1..]))
  {
  }

  lemma ReadMinutes(ms: string)
    requires |ms| > 0 && AllDigits(ms)
    ensures ReadDuration(ms + "m") == Some(DigitsValue(ms))
  {
    var r := ms + "m";
    assert r[..|r| - 1] == ms;
    NoHInDigits(ms);
  }

  /** For a non-negative count, the text reads back as the whole minutes
      it stands for: nothing but the seconds past the minute is lost. */
  lemma FormatDurationReadBack(secs: int)
    requires secs >= 0
    ensures ReadDuration(FormatDuration(secs)) == Some(secs / 60)
  {
    var h := Hours(secs);
    var m := Minutes(secs);
    NatToStringRoundTrip(m);
    if h > 0 {
      NatToStringRoundTrip(h);
      ReadHoursMinutes(NatToString(h), NatToString(m), FormatDuration(secs));
    } else {
      ReadMinutes(NatToString(m));
    }
  }

  /** What the tray shows: idle wins over tracking, tracking over paused. */
  datatype Status = Idle | Tracking | Stopped

  function StatusOf(isIdle: bool, isTracking: bool): (s: Status)
    ensures s == Idle <==> isIdle
    ensures s == Tracking <==> !isIdle && isTracking
    ensures s == Stopped <==> !isIdle && !isTracking
  {
    if isIdle then Idle else if isTracking then Tracking else Stopped
  }

  /** `icon_name`. */
  function IconName(isIdle: bool, isTracking: bool): (r: string)
    ensures r == "user-idle" <==> isIdle
    ensures r == "chronometer" <==> !isIdle && isTracking
    ensures r == "media-playback-pause" <==> !isIdle && !isTracking
  {
    match StatusOf(isIdle, isTracking)
    case Idle => "user-idle"
    case Tracking => "chronometer"
    case Stopped => "media-playback-pause"
  }

  const PauseGlyph: char := '\U{23F8}'
  const PlayGlyph: char := '\U{25B6}'
  const StopGlyph: char := '\U{23F9}'

  /** `title`: a status glyph, a space, and today's time; the time is
      "0m" when the shared text cannot be read (`None`). */
  function Title(isIdle: bool, isTracking: bool, time: Option<string>): (r: string)
    ensures |r| >= 2 && r[1] == ' ' && r[2..] == time.GetOr("0m")
    ensures r[0] == PauseGlyph <==> isIdle
    ensures r[0] == PlayGlyph <==> !isIdle && isTracking
    ensures r[0] == StopGlyph <==> !isIdle && !isTracking
  {
    var glyph := match StatusOf(isIdle, isTracking)
      case Idle => PauseGlyph
      case Tracking => PlayGlyph
      case Stopped => StopGlyph;
    [glyph, ' '] + time.GetOr("0m")
  }

  /** Icon and title always tell the same story: two flag settings give
      the same icon exactly when they give the same title. */
  lemma IconAgreesWithTitle(i1: bool, t1: bool, i2: bool, t2: bool, time: Option<string>)
    ensures IconName(i1, t1) == IconName(i2, t2) <==> Title(i1, t1, time) == Title(i2, t2, time)
  {
    if Title(i1, t1, time) == Title(i2, t2, time) {
      assert Title(i1, t1, time)[0] == Title(i2, t2, time)[0];
    }
  }
}
