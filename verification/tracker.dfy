/** The X11 probes of src/tracker.rs as functions of what the external
    programs printed. Spawning `xdotool`, `xprop` and `xprintidle` is
    outside the model: each probe's outcome is an input. */
module Tracker {
  import opened Wrappers
  import opened Text

  /** The outcome of running an external program: it could not be
      started, or it ran and exited with a status and some standard output. */
  datatype CmdResult = SpawnFailed | Ran(success: bool, stdout: string)

  datatype WindowInfo = WindowInfo(windowId: string, windowClass: string, windowTitle: string)

  /** Number of occurrences of `c` in `s`. */
  function Count(s: string, c: char): (n: nat)
    ensures n == 0 <==> c !in s
  {
    if |s| == 0 then 0 else (if s[0] == c then 1 else 0) + Count(s[1..], c)
  }

  lemma CountSplit(s: string, c: char, k: nat)
    requires k <= |s|
    ensures Count(s, c) == Count(s[..k], c) + Count(s[k..], c)
  {
    if k > 0 {
      CountSplit(s[1..], c, k - 1);
      assert s[1..][..k - 1] == s[..k][1..];
      assert s[1..][k - 1..] == s[k..];
    }
  }

  /** `str::split(char)`: the pieces between the separators; one more
      piece than there are separators. */
  function Split(s: string, c: char): (parts: seq<string>)
    ensures |parts| == Count(s, c) + 1
  {
    if |s| == 0 then [""]
    else
      var rest := Split(s[1..], c);
      if s[0] == c then [""] + rest else [[s[0]] + rest[0]] + rest[1..]
  }

  /** The fallback of `get_window_class`: the fourth piece of the output
      split at quotes, otherwise "unknown". */
  function ClassFallback(stdout: string): string {
    var parts := Split(stdout, '"');
    if |parts| >= 4 then parts[3] else "unknown"
  }

  /** The parsing part of `get_window_class`: the text between the first
      two double quotes of xprop's `WM_CLASS(STRING) = "instance", "class"`
      line, which is the instance name. */
  function WindowClassOf(stdout: string): (r: string)
    ensures Count(stdout, '"') >= 2 ==>
              exists i, j :: 0 <= i < j < |stdout| && stdout[i] == '"' && stdout[j] == '"'
                             && '"' !in stdout[..i] && r == stdout[i + 1..j]
    ensures Count(stdout, '"') < 2 ==> r == "unknown"
    ensures '"' !in r
  {
    var first := Find(stdout, '"');
    if first.Some? && Find(stdout[first.value + 1..], '"').Some? then
      var start := first.value;
      var rest := stdout[start + 1..];
      var end := Find(rest, '"').value;
      assert rest[end] == stdout[start + 1 + end];
      assert rest[..end] == stdout[start + 1..start + 1 + end];
      CountSplit(stdout, '"', start + 1);
      assert stdout[..start + 1][start] == '"' && rest[end] == '"';
      rest[..end]
    else
      FallbackUnreachable(stdout);
      ClassFallback(stdout)
  }

  /** The second-quoted-string fallback never fires: the first branch
      fails exactly when the output has fewer than two quotes, and then
      splitting at quotes yields at most two pieces. */
  lemma FallbackUnreachable(stdout: string)
    requires !(Find(stdout, '"').Some? && Find(stdout[Find(stdout, '"').value + 1..], '"').Some?)
    ensures Count(stdout, '"') < 2
    ensures |Split(stdout, '"')| < 4
    ensures ClassFallback(stdout) == "unknown"
  {
    var first := Find(stdout, '"');
    if first.Some? {
      var k := first.value;
      CountSplit(stdout, '"', k + 1);
      CountSplit(stdout[..k + 1], '"', k);
      assert stdout[..k + 1][..k] == stdout[..k];
      assert stdout[..k + 1][k..] == ['"'];
    }
  }

  /** `get_window_class`: fails only when xprop cannot be started; its
      exit status is not consulted. */
  function WindowClass(xprop: CmdResult): (r: Option<string>)
    ensures r.None? <==> xprop.SpawnFailed?
    ensures xprop.Ran? ==> r.value == WindowClassOf(xprop.stdout)
  {
    match xprop
    case SpawnFailed => None
    case Ran(_, stdout) => Some(WindowClassOf(stdout))
  }

  /** `get_active_window`, given the outcomes of `xdotool getactivewindow`,
      `xdotool getwindowname` and `xprop WM_CLASS` for that window. */
  function ActiveWindow(idCmd: CmdResult, titleCmd: CmdResult, xprop: CmdResult): (r: Option<WindowInfo>)
    ensures r.Some? <==> idCmd.Ran? && idCmd.success && Trim(idCmd.stdout) != ""
                         && titleCmd.Ran? && xprop.Ran?
    ensures r.Some? ==> r.value.windowId == Trim(idCmd.stdout)
                        && r.value.windowTitle == Trim(titleCmd.stdout)
                        && r.value.windowClass == WindowClassOf(xprop.stdout)
  {
    if idCmd.SpawnFailed? || !idCmd.success then None
    else
      var windowId := Trim(idCmd.stdout);
      if windowId == "" then None
      else if titleCmd.SpawnFailed? then None
      else
        var windowTitle := Trim(titleCmd.stdout);
        match WindowClass(xprop)
        case None => None
        case Some(windowClass) => Some(WindowInfo(windowId, windowClass, windowTitle))
  }

  const U64Limit: int := 0x1_0000_0000_0000_0000

  /** `str::parse::<u64>()`: an optional `+`, then one or more ASCII
      digits whose value fits in 64 bits. */
  function ParseU64(s: string): (r: Option<nat>)
    ensures r.Some? <==> var d := if |s| > 0 && s[0] == '+' then s[1..] else s;
                         |d| > 0 && AllDigits(d) && DigitsValue(d) < U64Limit
    ensures r.Some? ==> r.value < U64Limit
  {
    var digits := if |s| > 0 && s[0] == '+' then s[1..] else s;
    if |digits| == 0 || !AllDigits(digits) then None
    else
      var v := DigitsValue(digits);
      if v < U64Limit then Some(v) else None
  }

  /** Parsing reads back any 64-bit value written in decimal. */
  lemma ParseRendered(n: nat)
    requires n < U64Limit
    ensures ParseU64(NatToString(n)) == Some(n)
  {
    NatToStringRoundTrip(n);
  }

  /** `get_idle_time_secs`: xprintidle's millisecond count divided down to
      whole seconds; 0 when it cannot be started, exits unsuccessfully, or
      prints something that is not a 64-bit number. */
  function IdleSecs(xprintidle: CmdResult): (secs: nat)
    ensures secs < U64Limit / 1000 + 1
    ensures xprintidle.Ran? && xprintidle.success && ParseU64(Trim(xprintidle.stdout)).Some? ==>
              secs * 1000 <= ParseU64(Trim(xprintidle.stdout)).value < secs * 1000 + 1000
    ensures !(xprintidle.Ran? && xprintidle.success && ParseU64(Trim(xprintidle.stdout)).Some?) ==> secs == 0
  {
    match xprintidle
    case SpawnFailed => 0
    case Ran(success, stdout) =>
      if !success then 0
      else
        match ParseU64(Trim(stdout))
        case None => 0
        case Some(ms) => ms / 1000
  }

  /** A typical reading: the decimal milliseconds followed by a newline. */
  lemma IdleOfPrintedMillis(ms: nat)
    requires ms < U64Limit
    ensures IdleSecs(Ran(true, NatToString(ms) + "\n")) == ms / 1000
  {
    var d := NatToString(ms);
    var s := d + "\n";
    assert s[0] == d[0] && !IsSpace(s[0]);
    assert SkipSpace(s, 0) == 0;
    assert s[|s| - 1] == '\n' && !IsSpace(s[|s| - 2]);
    assert BackSpace(s, |s|) == |s| - 1;
    assert s[0..|s| - 1] == d;
    assert Trim(s) == d;
    ParseRendered(ms);
  }
}
