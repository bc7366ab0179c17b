/** The Pomodoro timer of src/pomodoro.rs as a record and transition
    functions. The locks and atomics only serialise these updates; the
    `last_tick` instant is written but never read, and the `enabled` flag
    is a plain switch nothing else consults, so neither is modelled. */
module Pomodoro {
  import opened Wrappers
  import opened Text

  datatype TimerState = Idle | Working | ShortBreak | LongBreak | Paused

  /** A session is under way: the states `pause` acts on. */
  predicate Running(s: TimerState) {
    s == Working || s == ShortBreak || s == LongBreak
  }

  /** `TimerState::as_str`. */
  function StateName(s: TimerState): (r: string)
    ensures |r| > 0
  {
    match s
    case Idle => "idle"
    case Working => "working"
    case ShortBreak => "short_break"
    case LongBreak => "long_break"
    case Paused => "paused"
  }

  /** Different states have different names. */
  lemma StateNameInjective(a: TimerState, b: TimerState)
    requires StateName(a) == StateName(b)
    ensures a == b
  {
  }

  const DefaultWorkMins: nat := 25
  const DefaultShortBreakMins: nat := 5
  const DefaultLongBreakMins: nat := 15
  const PomodorosUntilLongBreak: nat := 4

  /** The timer; durations and `remaining` are in seconds. */
  datatype Timer = Timer(state: TimerState, beforePause: TimerState, remaining: nat, completed: nat,
                         workDuration: nat, shortBreakDuration: nat, longBreakDuration: nat)

  /** `PomodoroTimer::with_durations`, from minutes. */
  function WithDurations(workMins: nat, shortBreakMins: nat, longBreakMins: nat): (t: Timer)
    ensures t.state == Idle && t.completed == 0 && t.remaining == t.workDuration
    ensures t.workDuration == workMins * 60 && t.shortBreakDuration == shortBreakMins * 60
            && t.longBreakDuration == longBreakMins * 60
  {
    Timer(Idle, Idle, workMins * 60, 0, workMins * 60, shortBreakMins * 60, longBreakMins * 60)
  }

  /** `PomodoroTimer::new`: 25-minute work, 5- and 15-minute breaks. */
  function New(): (t: Timer)
    ensures t.state == Idle && t.remaining == 1500 && t.completed == 0
    ensures t.shortBreakDuration == 300 && t.longBreakDuration == 900
  {
    WithDurations(DefaultWorkMins, DefaultShortBreakMins, DefaultLongBreakMins)
  }

  /** `start_work`. */
  function StartWork(t: Timer): (r: Timer)
    ensures r.state == Working && r.remaining == t.workDuration
    ensures r.(state := t.state, remaining := t.remaining) == t
  {
    t.(state := Working, remaining := t.workDuration)
  }

  /** The count as `start_break` reads it: the low 32 bits (`as u32`). */
  function Completed32(completed: nat): (c: nat)
    ensures c < 0x1_0000_0000
    ensures completed < 0x1_0000_0000 ==> c == completed
  {
    completed % 0x1_0000_0000
  }

  /** Every fourth completed pomodoro earns the long break. */
  predicate LongBreakDue(completed: nat) {
    var c := Completed32(completed);
    c > 0 && c % PomodorosUntilLongBreak == 0
  }

  /** `start_break`: the long break when it is due, else the short one. */
  function StartBreak(t: Timer): (r: Timer)
    ensures r.state == LongBreak <==> LongBreakDue(t.completed)
    ensures r.state == ShortBreak <==> !LongBreakDue(t.completed)
    ensures r.remaining == if LongBreakDue(t.completed) then t.longBreakDuration else t.shortBreakDuration
    ensures r.(state := t.state, remaining := t.remaining) == t
  {
    if LongBreakDue(t.completed) then t.(state := LongBreak, remaining := t.longBreakDuration)
    else t.(state := ShortBreak, remaining := t.shortBreakDuration)
  }

  /** `pause`: a running session remembers its state and pauses; an idle
      or paused timer is left alone. */
  function Pause(t: Timer): (r: Timer)
    ensures Running(t.state) ==> r == t.(state := Paused, beforePause := t.state)
    ensures !Running(t.state) ==> r == t
  {
    if t.state != Idle && t.state != Paused then t.(beforePause := t.state, state := Paused)
    else t
  }

  /** `resume`: only a paused timer returns to its remembered state. */
  function Resume(t: Timer): (r: Timer)
    ensures t.state == Paused ==> r == t.(state := t.beforePause)
    ensures t.state != Paused ==> r == t
  {
    if t.state == Paused then t.(state := t.beforePause) else t
  }

  /** `reset`: idle, a full work session on the clock, no pomodoros. */
  function Reset(t: Timer): (r: Timer)
    ensures r.state == Idle && r.remaining == t.workDuration && r.completed == 0
    ensures r.(state := t.state, remaining := t.remaining, completed := t.completed) == t
  {
    t.(state := Idle, remaining := t.workDuration, completed := 0)
  }

  /** `skip`: work gives way to a break without counting a pomodoro; a
      break gives way to work; idle and paused timers do nothing. */
  function Skip(t: Timer): (r: Timer)
    ensures r.completed == t.completed
    ensures t.state == Working ==> r == StartBreak(t)
    ensures t.state == ShortBreak || t.state == LongBreak ==> r == StartWork(t)
    ensures !Running(t.state) ==> r == t
  {
    match t.state
    case Working => StartBreak(t)
    case ShortBreak => StartWork(t)
    case LongBreak => StartWork(t)
    case _ => t
  }

  /** `tick`, as written: a running session with time left loses one
      second; one with none left completes (counting a pomodoro after
      work) and the next session starts. The flag says whether a session
      completed. */
  function Tick(t: Timer): (r: (Timer, bool))
    ensures !Running(t.state) ==> r == (t, false)
    ensures Running(t.state) && t.remaining > 0 ==> r == (t.(remaining := t.remaining - 1), false)
    ensures Running(t.state) && t.remaining == 0 ==> r.1
    ensures t.state == Working && t.remaining == 0 ==> r.0 == StartBreak(t.(completed := t.completed + 1))
    ensures t.state in {ShortBreak, LongBreak} && t.remaining == 0 ==> r.0 == StartWork(t)
  {
    if t.state == Idle || t.state == Paused then (t, false)
    else if t.remaining > 0 then (t.(remaining := t.remaining - 1), false)
    else if t.state == Working then (StartBreak(t.(completed := t.completed + 1)), true)
    else (StartWork(t), true)
  }

  /** `n` calls of `tick`. */
  function Ticks(t: Timer, n: nat): (r: Timer)
    ensures n == 0 ==> r == t
    decreases n
  {
    if n == 0 then t else Ticks(Tick(t).0, n - 1)
  }

  /** While time is left, each tick takes one second off and nothing else. */
  lemma {:induction false} CountDown(t: Timer, k: nat)
    requires Running(t.state) && k <= t.remaining
    ensures Ticks(t, k) == t.(remaining := t.remaining - k)
    decreases k
  {
    if k > 0 {
      CountDown(t.(remaining := t.remaining - 1), k - 1);
    }
  }

  /** Ticks compose. */
  lemma {:induction false} TicksAdd(t: Timer, a: nat, b: nat)
    ensures Ticks(t, a + b) == Ticks(Ticks(t, a), b)
    decreases a
  {
    if a > 0 {
      TicksAdd(Tick(t).0, a - 1, b);
    }
  }

  /** As written, a work session of `d` seconds is still running, at zero,
      after `d` ticks, and completes only on tick `d + 1`. */
  lemma WorkCompletesAfterExtraTick(t: Timer)
    ensures var w := StartWork(t);
            Ticks(w, w.remaining) == w.(remaining := 0)
            && Ticks(w, w.remaining + 1) == StartBreak(w.(remaining := 0, completed := w.completed + 1))
  {
    var w := StartWork(t);
    CountDown(w, w.remaining);
    TicksAdd(w, w.remaining, 1);
  }

  /** The one-minute test of src/pomodoro.rs: after 60 ticks the timer is
      still working and has completed nothing, where the test expects a
      break and one completed pomodoro. */
  lemma OneMinuteTestAsWritten(t: Timer)
    requires t == StartWork(WithDurations(1, 1, 1))
    ensures Ticks(t, 60).state == Working && Ticks(t, 60).completed == 0
  {
    CountDown(t, 60);
  }

  /** `tick` as the one-minute test expects it: the tick that takes the
      last second off completes the session. */
  function TickFixed(t: Timer): (r: (Timer, bool))
    ensures !Running(t.state) ==> r == (t, false)
    ensures Running(t.state) && t.remaining > 1 ==> r == (t.(remaining := t.remaining - 1), false)
    ensures Running(t.state) && t.remaining <= 1 ==> r.1
    ensures t.state == Working && t.remaining <= 1 ==> r.0 == StartBreak(t.(remaining := 0, completed := t.completed + 1))
    ensures t.state in {ShortBreak, LongBreak} && t.remaining <= 1 ==> r.0 == StartWork(t)
  {
    if t.state == Idle || t.state == Paused then (t, false)
    else if t.remaining > 1 then (t.(remaining := t.remaining - 1), false)
    else if t.state == Working then (StartBreak(t.(remaining := 0, completed := t.completed + 1)), true)
    else (StartWork(t), true)
  }

  function TicksFixed(t: Timer, n: nat): (r: Timer)
    ensures n == 0 ==> r == t
    decreases n
  {
    if n == 0 then t else TicksFixed(TickFixed(t).0, n - 1)
  }

  /** With the corrected tick, `k` ticks short of the end take `k`
      seconds off. */
  lemma {:induction false} CountDownFixed(t: Timer, k: nat)
    requires Running(t.state) && k < t.remaining
    ensures TicksFixed(t, k) == t.(remaining := t.remaining - k)
    decreases k
  {
    if k > 0 {
      CountDownFixed(t.(remaining := t.remaining - 1), k - 1);
    }
  }

  lemma {:induction false} TicksFixedAdd(t: Timer, a: nat, b: nat)
    ensures TicksFixed(t, a + b) == TicksFixed(TicksFixed(t, a), b)
    decreases a
  {
    if a > 0 {
      TicksFixedAdd(TickFixed(t).0, a - 1, b);
    }
  }

  /** With the corrected tick, a work session of `d >= 1` seconds
      completes on tick `d` and counts one pomodoro. */
  lemma WorkCompletesOnTime(t: Timer)
    requires t.workDuration >= 1
    ensures var w := StartWork(t);
            TicksFixed(w, w.remaining) == StartBreak(w.(remaining := 0, completed := w.completed + 1))
  {
    var w := StartWork(t);
    var d := w.remaining;
    CountDownFixed(w, d - 1);
    TicksFixedAdd(w, d - 1, 1);
  }

  /** The one-minute test holds of the corrected tick. */
  lemma OneMinuteTestFixed(t: Timer)
    requires t == StartWork(WithDurations(1, 1, 1))
    ensures TicksFixed(t, 60).state == ShortBreak && TicksFixed(t, 60).completed == 1
  {
    WorkCompletesOnTime(WithDurations(1, 1, 1));
  }

  /** `{:02}`: at least two decimal digits, zero-padded. */
  function Pad2(n: nat): (r: string)
    ensures |r| >= 2 && (n < 100 ==> |r| == 2)
    ensures forall k :: 0 <= k < |r| ==> IsAsciiDigit(r[k])
    ensures DigitsValue(r) == n
  {
    NatToStringRoundTrip(n);
    if n < 10 then
      var r := "0" + NatToString(n);
      assert r[..|r| - 1] == "0";
      r
    else
      assert NatToString(n) == NatToString(n / 10) + [DigitChar(n % 10)];
      NatToString(n)
  }

  /** `format_remaining`: `MM:SS`, minutes at least two digits. Reading
      the two numbers back gives the seconds. */
  function FormatRemaining(secs: nat): (r: string)
    ensures |r| >= 5 && r[|r| - 3] == ':'
    ensures forall k :: 0 <= k < |r| - 3 ==> IsAsciiDigit(r[k])
    ensures IsAsciiDigit(r[|r| - 2]) && IsAsciiDigit(r[|r| - 1])
    ensures DigitsValue(r[..|r| - 3]) * 60 + DigitsValue(r[|r| - 2..]) == secs
    ensures DigitsValue(r[|r| - 2..]) < 60
  {
    var m := Pad2(secs / 60);
    var s := Pad2(secs % 60);
    var r := m + ":" + s;
    assert r[..|r| - 3] == m;
    assert r[|r| - 2..] == s;
    r
  }

  /** `get_tray_status`: nothing when idle, else the clock and a state tag. */
  function TrayStatus(t: Timer): (r: Option<string>)
    ensures r.None? <==> t.state == Idle
    ensures r.Some? ==> StartsWith(r.value, " | " + FormatRemaining(t.remaining) + " ")
    ensures t.state == Working ==> r == Some(" | " + FormatRemaining(t.remaining) + " W")
    ensures t.state == ShortBreak ==> r == Some(" | " + FormatRemaining(t.remaining) + " B")
    ensures t.state == LongBreak ==> r == Some(" | " + FormatRemaining(t.remaining) + " LB")
    ensures t.state == Paused ==> r == Some(" | " + FormatRemaining(t.remaining) + " P")
  {
    var clock := " | " + FormatRemaining(t.remaining);
    match t.state
    case Idle => None
    case Working => Some(clock + " W")
    case ShortBreak => Some(clock + " B")
    case LongBreak => Some(clock + " LB")
    case Paused => Some(clock + " P")
  }

  /** The tray text determines the timer's state and remaining time: the
      tag after the clock names the state, and the clock reads back as the
      seconds it shows. */
  lemma {:induction false} TrayStatusReadBack(t: Timer, u: Timer)
    requires TrayStatus(t).Some? && TrayStatus(t) == TrayStatus(u)
    ensures t.state == u.state && t.remaining == u.remaining
  {
    var fa := FormatRemaining(t.remaining);
    var fb := FormatRemaining(u.remaining);
    TrayText(t);
    TrayText(u);
    ClockTagSplit(fa, Tag(t.state), fb, Tag(u.state));
    FormatRemainingInjective(t.remaining, u.remaining);
  }

  /** Different times show different clocks. */
  lemma FormatRemainingInjective(x: nat, y: nat)
    ensures FormatRemaining(x) == FormatRemaining(y) ==> x == y
  {
  }

  /** The tray text is the separator, the clock and the state's tag. */
  lemma TrayText(t: Timer)
    requires t.state != Idle
    ensures TrayStatus(t) == Some(" | " + (FormatRemaining(t.remaining) + Tag(t.state)))
  {
    ConcatAssoc(" | ", FormatRemaining(t.remaining), Tag(t.state));
  }

  /** A clock ending in a digit followed by a tag splits back into the two
      in one way only. */
  lemma ClockTagSplit(fa: string, ta: string, fb: string, tb: string)
    requires |fa| > 0 && IsAsciiDigit(fa[|fa| - 1]) && |fb| > 0 && IsAsciiDigit(fb[|fb| - 1])
    requires ta in {" W", " B", " LB", " P"} && tb in {" W", " B", " LB", " P"}
    requires " | " + (fa + ta) == " | " + (fb + tb)
    ensures ta == tb && fa == fb
  {
    var a := fa + ta;
    assert a == fb + tb by {
      assert a == (" | " + a)[3..];
    }
    assert a[|a| - 1] == ta[|ta| - 1] == tb[|tb| - 1];
    assert a[|a| - 2] == ta[|ta| - 2] == tb[|tb| - 2];
    assert a[|a| - 3] == (if |ta| == 3 then ta[0] else fa[|fa| - 1]);
    assert a[|a| - 3] == (if |tb| == 3 then tb[0] else fb[|fb| - 1]);
    assert ta == tb;
    assert fa == a[..|a| - |ta|] == fb;
  }

  /** The state tag after the tray clock. */
  function Tag(s: TimerState): (r: string)
    ensures s != Idle ==> r in {" W", " B", " LB", " P"}
  {
    match s
    case Idle => ""
    case Working => " W"
    case ShortBreak => " B"
    case LongBreak => " LB"
    case Paused => " P"
  }

  // ------------------------------------------------------- the invariant

  /** What every reachable timer satisfies: a paused timer remembers a
      running state, the remembered state is never `Paused`, and the
      clock never shows more than the longest duration. */
  predicate Wf(t: Timer) {
    t.beforePause != Paused
    && (t.state == Paused ==> Running(t.beforePause))
    && t.remaining <= Longest(t)
  }

  function Longest(t: Timer): (m: nat)
    ensures m >= t.workDuration && m >= t.shortBreakDuration && m >= t.longBreakDuration
    ensures m == t.workDuration || m == t.shortBreakDuration || m == t.longBreakDuration
  {
    var a := if t.workDuration >= t.shortBreakDuration then t.workDuration else t.shortBreakDuration;
    if a >= t.longBreakDuration then a else t.longBreakDuration
  }

  /** The operations a caller can apply. `TickOp` is `tick` as written;
      `TickFixedOp` is the corrected tick. */
  datatype Op = StartWorkOp | StartBreakOp | PauseOp | ResumeOp | ResetOp | SkipOp | TickOp | TickFixedOp

  function Apply(t: Timer, op: Op): (r: Timer)
    ensures r.workDuration == t.workDuration && r.shortBreakDuration == t.shortBreakDuration
            && r.longBreakDuration == t.longBreakDuration
    ensures op != ResetOp && op != TickOp && op != TickFixedOp ==> r.completed == t.completed
  {
    match op
    case StartWorkOp => StartWork(t)
    case StartBreakOp => StartBreak(t)
    case PauseOp => Pause(t)
    case ResumeOp => Resume(t)
    case ResetOp => Reset(t)
    case SkipOp => Skip(t)
    case TickOp => Tick(t).0
    case TickFixedOp => TickFixed(t).0
  }

  /** Every operation keeps the invariant, and resuming never leaves the
      timer paused. */
  lemma ApplyKeepsWf(t: Timer, op: Op)
    requires Wf(t)
    ensures Wf(Apply(t, op))
    ensures op == ResumeOp && t.state == Paused ==> Running(Apply(t, op).state)
  {
  }

  function Run(t: Timer, ops: seq<Op>): (r: Timer)
    decreases |ops|
  {
    if |ops| == 0 then t else Run(Apply(t, ops[0]), ops[1..])
  }

  /** A fresh timer is well formed, and stays so whatever is done to it. */
  lemma {:induction false} RunKeepsWf(t: Timer, ops: seq<Op>)
    requires Wf(t)
    ensures Wf(Run(t, ops))
    decreases |ops|
  {
    if |ops| > 0 {
      ApplyKeepsWf(t, ops[0]);
      RunKeepsWf(Apply(t, ops[0]), ops[1..]);
    }
  }

  lemma NewIsWf(workMins: nat, shortBreakMins: nat, longBreakMins: nat)
    ensures Wf(WithDurations(workMins, shortBreakMins, longBreakMins))
  {
  }

  /** Pausing and resuming a running session restores it. */
  lemma PauseResume(t: Timer)
    requires Running(t.state)
    ensures Resume(Pause(t)) == t.(beforePause := t.state)
    ensures Pause(Pause(t)) == Pause(t)
  {
  }

  /** The pause/resume test of src/pomodoro.rs, for any timer. */
  lemma PauseResumeTest(t: Timer)
    ensures Pause(StartWork(t)).state == Paused
    ensures Resume(Pause(StartWork(t))).state == Working
  {
  }

  /** A long break comes after the 4th, 8th, ... pomodoro, never after
      the first three. */
  lemma LongBreakEveryFourth(k: nat)
    requires 0 < k < 0x4000_0000
    ensures LongBreakDue(4 * k)
    ensures !LongBreakDue(4 * k + 1) && !LongBreakDue(4 * k + 2) && !LongBreakDue(4 * k + 3)
    ensures !LongBreakDue(0)
  {
  }
}
