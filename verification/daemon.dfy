/** The tracking loop of `start_daemon` in src/main.rs as a transition
    function. The loop handles one event at a time: a poll tick, a tray
    command, Ctrl-C, or the tray storing its pause/resume flag. What the
    X11 probes print, the clock and the start of the local day are inputs
    of the tick. */
module Daemon {
  import opened Wrappers
  import opened Storage
  import Config
  import StorageQueries
  import Tracker
  import Tray

  /** The loop's state: the table, the open session it remembers, the
      flags and text it shares with the tray, and whether it still runs. */
  datatype Daemon = Daemon(
    rows: seq<Row>,
    session: Option<int>,
    tracking: bool,
    idle: bool,
    idleSecs: nat,
    todayTime: string,
    running: bool)

  /** What one poll tick observes: the outcome of `xprintidle`, of the
      three commands behind `get_active_window`, the time, and the epoch
      second at which the local day began. */
  datatype Probe = Probe(
    xprintidle: Tracker.CmdResult,
    idCmd: Tracker.CmdResult,
    titleCmd: Tracker.CmdResult,
    xprop: Tracker.CmdResult,
    now: int,
    dayStart: int)

  datatype Event =
    | PollTick(probe: Probe)
    | ShowStats
    | PauseCommand(now: int)
    | ResumeCommand
    | QuitCommand(now: int)
    | CtrlC(now: int)
    | SetTracking(on: bool)

  /** The ids the loop believes open. */
  function SessionIds(session: Option<int>): set<int> {
    match session
    case None => {}
    case Some(id) => {id}
  }

  /** The headline invariant: while the loop runs, the open rows are
      exactly the remembered session; once it has stopped, none is open. */
  predicate Inv(d: Daemon) {
    Valid(d.rows)
    && (d.running ==> OpenIds(d.rows) == SessionIds(d.session))
    && (!d.running ==> OpenIds(d.rows) == {})
  }

  /** Ends the remembered session, if there is one. */
  function EndSession(rows: seq<Row>, session: Option<int>, now: int): (r: seq<Row>)
    requires Valid(rows)
    ensures Valid(r) && OpenIds(r) == OpenIds(rows) - SessionIds(session)
    ensures session.None? ==> r == rows
  {
    match session
    case None => rows
    case Some(id) =>
      EndActivityOpenIds(rows, id, now);
      EndActivity(rows, id, now)
  }

  /** The tray text after a tick: today's total, formatted. It reads back
      as today's whole minutes, and is "0m" on a day without rows. */
  function TodayText(rows: seq<Row>, dayStart: int): (r: string)
    ensures StorageQueries.TodayTotal(rows, dayStart) >= 0 ==>
              Tray.ReadDuration(r) == Some(StorageQueries.TodayTotal(rows, dayStart) / 60)
    ensures |StorageQueries.DayRows(rows, dayStart)| == 0 ==> r == "0m"
  {
    var total := StorageQueries.TodayTotal(rows, dayStart);
    if total >= 0 then
      Tray.FormatDurationReadBack(total);
      Tray.FormatDuration(total)
    else
      Tray.FormatDuration(total)
  }

  /** `start_daemon` before the loop: orphaned sessions are closed,
      nothing is remembered, tracking is on and the tray shows today. */
  function Startup(rows: seq<Row>, now: int, dayStart: int): (d: Daemon)
    requires Valid(rows)
    ensures Inv(d) && d.running && d.tracking && d.session.None?
    ensures OpenIds(d.rows) == {}
  {
    CloseOpenSessionsClosesAll(rows, now);
    var closed := CloseOpenSessions(rows, now);
    Daemon(closed, None, true, false, 0, TodayText(closed, dayStart), true)
  }

  /** Whether the window's app needs a new row: it differs from the app
      of `get_active_session`, or no row is open. */
  function NeedNewSession(rows: seq<Row>, appName: string): (b: bool)
    ensures !b <==> ActiveSession(rows).Some? && ActiveSession(rows).value.appName == appName
  {
    match ActiveSession(rows)
    case None => true
    case Some(active) => active.appName != appName
  }

  /** The window classification of a tick that is neither paused nor idle. */
  function Classify(d: Daemon, cfg: Config.Config, p: Probe): (r: Daemon)
    requires Valid(d.rows)
    ensures Valid(r.rows)
    ensures r.tracking == d.tracking && r.idle == d.idle && r.idleSecs == d.idleSecs
            && r.running == d.running && r.todayTime == d.todayTime
    ensures Tracker.ActiveWindow(p.idCmd, p.titleCmd, p.xprop).None? ==> r == d
  {
    match Tracker.ActiveWindow(p.idCmd, p.titleCmd, p.xprop)
    case None => d
    case Some(w) =>
      match Config.MatchWindow(cfg.apps, w.windowClass, w.windowTitle)
      case None => d.(rows := EndSession(d.rows, d.session, p.now), session := None)
      case Some(app) =>
        if NeedNewSession(d.rows, app.name) then
          var ended := EndSession(d.rows, d.session, p.now);
          var started := StartActivity(ended, app.name, app.category, w.windowTitle, p.now);
          d.(rows := started.0, session := Some(started.1))
        else d
  }

  /** One poll tick of the loop. */
  function Tick(d: Daemon, cfg: Config.Config, p: Probe): (r: Daemon)
    requires Valid(d.rows)
    ensures Valid(r.rows) && r.running == d.running && r.tracking == d.tracking
    // tracking switched off: nothing happens
    ensures !d.tracking ==> r == d
    // idle past the timeout: the session ends and the window is not looked at
    ensures d.tracking && Tracker.IdleSecs(p.xprintidle) > cfg.idleTimeoutSecs ==>
              r == d.(idle := true, idleSecs := Tracker.IdleSecs(p.xprintidle),
                      rows := EndSession(d.rows, d.session, p.now), session := None)
    // otherwise the idle flag is cleared and the tray time refreshed
    ensures d.tracking && Tracker.IdleSecs(p.xprintidle) <= cfg.idleTimeoutSecs ==>
              !r.idle && r.idleSecs == 0 && r.todayTime == TodayText(r.rows, p.dayStart)
  {
    if !d.tracking then d
    else
      var idleSecs := Tracker.IdleSecs(p.xprintidle);
      if idleSecs > cfg.idleTimeoutSecs then
        d.(idle := true, idleSecs := idleSecs, rows := EndSession(d.rows, d.session, p.now), session := None)
      else
        var c := Classify(d.(idle := false, idleSecs := 0), cfg, p);
        c.(todayTime := TodayText(c.rows, p.dayStart))
  }

  /** One event. A stopped loop handles nothing more. */
  function Step(d: Daemon, cfg: Config.Config, e: Event): (r: Daemon)
    requires Valid(d.rows)
    ensures Valid(r.rows)
    ensures !d.running ==> r == d
    ensures d.running && e.PauseCommand? ==> r.session.None? && r.running
    ensures d.running && (e.QuitCommand? || e.CtrlC?) ==> !r.running
  {
    if !d.running then d
    else
      match e
      case PollTick(p) => Tick(d, cfg, p)
      case ShowStats => d
      case PauseCommand(now) => d.(rows := EndSession(d.rows, d.session, now), session := None)
      case ResumeCommand => d
      case QuitCommand(now) => d.(rows := EndSession(d.rows, d.session, now), running := false)
      case CtrlC(now) => d.(rows := EndSession(d.rows, d.session, now), running := false)
      case SetTracking(on) => d.(tracking := on)
  }

  /** The classification keeps the invariant of a running loop. */
  lemma ClassifyKeepsInv(d: Daemon, cfg: Config.Config, p: Probe)
    requires Inv(d) && d.running
    ensures Inv(Classify(d, cfg, p))
  {
    match Tracker.ActiveWindow(p.idCmd, p.titleCmd, p.xprop)
    case None =>
    case Some(w) =>
      match Config.MatchWindow(cfg.apps, w.windowClass, w.windowTitle)
      case None =>
      case Some(app) =>
        if NeedNewSession(d.rows, app.name) {
          SwitchSession(d.rows, d.session, app.name, app.category, w.windowTitle, p.now);
        }
  }

  /** Ending the remembered session leaves no row open. */
  lemma EndSessionClosesAll(rows: seq<Row>, session: Option<int>, now: int)
    requires Valid(rows) && OpenIds(rows) == SessionIds(session)
    ensures OpenIds(EndSession(rows, session, now)) == {}
  {
  }

  /** Ending the remembered session and starting a row leaves exactly the
      new row open. */
  lemma SwitchSession(rows: seq<Row>, session: Option<int>, appName: string, category: string,
                      windowTitle: string, now: int)
    requires Valid(rows) && OpenIds(rows) == SessionIds(session)
    ensures var started := StartActivity(EndSession(rows, session, now), appName, category, windowTitle, now);
            OpenIds(started.0) == {started.1}
  {
    EndSessionClosesAll(rows, session, now);
  }

  /** Every event keeps the invariant. */
  lemma StepKeepsInv(d: Daemon, cfg: Config.Config, e: Event)
    requires Inv(d)
    ensures Inv(Step(d, cfg, e))
  {
    if d.running {
      match e
      case PollTick(p) =>
        if d.tracking && Tracker.IdleSecs(p.xprintidle) <= cfg.idleTimeoutSecs {
          ClassifyKeepsInv(d.(idle := false, idleSecs := 0), cfg, p);
        }
      case _ =>
    }
  }

  function Run(d: Daemon, cfg: Config.Config, events: seq<Event>): (r: Daemon)
    requires Valid(d.rows)
    ensures Valid(r.rows)
    decreases |events|
  {
    if |events| == 0 then d else Run(Step(d, cfg, events[0]), cfg, events[1..])
  }

  /** From start-up on, whatever happens, the open rows are the remembered
      session while the loop runs, and none once it has stopped. */
  lemma {:induction false} RunKeepsInv(d: Daemon, cfg: Config.Config, events: seq<Event>)
    requires Inv(d)
    ensures Inv(Run(d, cfg, events))
    decreases |events|
  {
    if |events| > 0 {
      StepKeepsInv(d, cfg, events[0]);
      RunKeepsInv(Step(d, cfg, events[0]), cfg, events[1..]);
    }
  }

  lemma DaemonLifetime(rows: seq<Row>, now: int, dayStart: int, cfg: Config.Config, events: seq<Event>)
    requires Valid(rows)
    ensures var d := Run(Startup(rows, now, dayStart), cfg, events);
            |OpenIds(d.rows)| <= 1 && AtMostOneOpen(d.rows)
            && (d.running ==> OpenIds(d.rows) == SessionIds(d.session))
            && (!d.running ==> OpenIds(d.rows) == {})
  {
    var d := Run(Startup(rows, now, dayStart), cfg, events);
    RunKeepsInv(Startup(rows, now, dayStart), cfg, events);
    assert |OpenIds(d.rows)| <= 1;
    OneOpenId(d.rows);
  }

  // ------------------------------------------- the branches of a tick

  /** A probe of the window that fails leaves the session and the table
      as they were. */
  lemma ProbeFailureKeepsSession(d: Daemon, cfg: Config.Config, p: Probe)
    requires Valid(d.rows) && d.tracking && Tracker.IdleSecs(p.xprintidle) <= cfg.idleTimeoutSecs
    requires Tracker.ActiveWindow(p.idCmd, p.titleCmd, p.xprop).None?
    ensures Tick(d, cfg, p).rows == d.rows && Tick(d, cfg, p).session == d.session
  {
  }

  /** A window no rule matches ends the session. */
  lemma UnmatchedWindowEndsSession(d: Daemon, cfg: Config.Config, p: Probe)
    requires Inv(d) && d.running && d.tracking && Tracker.IdleSecs(p.xprintidle) <= cfg.idleTimeoutSecs
    requires var w := Tracker.ActiveWindow(p.idCmd, p.titleCmd, p.xprop);
             w.Some? && Config.MatchWindow(cfg.apps, w.value.windowClass, w.value.windowTitle).None?
    ensures Tick(d, cfg, p).session.None?
    ensures Tick(d, cfg, p).rows == EndSession(d.rows, d.session, p.now)
    ensures OpenIds(Tick(d, cfg, p).rows) == {}
  {
  }

  /** A matched window of another app than the open row's (or with no
      row open) ends the session and opens one new row, for that app and
      the window's title, which becomes the session. */
  lemma OtherAppStartsSession(d: Daemon, cfg: Config.Config, p: Probe)
    requires Inv(d) && d.running && d.tracking && Tracker.IdleSecs(p.xprintidle) <= cfg.idleTimeoutSecs
    requires var w := Tracker.ActiveWindow(p.idCmd, p.titleCmd, p.xprop);
             w.Some? && Config.MatchWindow(cfg.apps, w.value.windowClass, w.value.windowTitle).Some?
             && NeedNewSession(d.rows, Config.MatchWindow(cfg.apps, w.value.windowClass, w.value.windowTitle).value.name)
    ensures var w := Tracker.ActiveWindow(p.idCmd, p.titleCmd, p.xprop).value;
            var app := Config.MatchWindow(cfg.apps, w.windowClass, w.windowTitle).value;
            var r := Tick(d, cfg, p);
            var ended := EndSession(d.rows, d.session, p.now);
            r.session.Some? && OpenIds(r.rows) == {r.session.value}
            && |r.rows| == |ended| + 1 && r.rows[..|ended|] == ended
            && r.rows[|ended|] == Row(r.session.value, app.name, app.category, w.windowTitle, p.now, None, 0, 0, 0)
  {
    var w := Tracker.ActiveWindow(p.idCmd, p.titleCmd, p.xprop).value;
    var app := Config.MatchWindow(cfg.apps, w.windowClass, w.windowTitle).value;
    SwitchSession(d.rows, d.session, app.name, app.category, w.windowTitle, p.now);
  }

  /** A matched window of the app whose row is open changes neither the
      session nor the table. */
  lemma SameAppKeepsSession(d: Daemon, cfg: Config.Config, p: Probe)
    requires Valid(d.rows) && d.tracking && Tracker.IdleSecs(p.xprintidle) <= cfg.idleTimeoutSecs
    requires var w := Tracker.ActiveWindow(p.idCmd, p.titleCmd, p.xprop);
             w.Some? && Config.MatchWindow(cfg.apps, w.value.windowClass, w.value.windowTitle).Some?
             && var a := ActiveSession(d.rows);
                a.Some? && a.value.appName == Config.MatchWindow(cfg.apps, w.value.windowClass, w.value.windowTitle).value.name
    ensures Tick(d, cfg, p).rows == d.rows && Tick(d, cfg, p).session == d.session
  {
  }

  /** Going idle ends the session: afterwards no row is open. */
  lemma IdleEndsSession(d: Daemon, cfg: Config.Config, p: Probe)
    requires Inv(d) && d.running && d.tracking && Tracker.IdleSecs(p.xprintidle) > cfg.idleTimeoutSecs
    ensures Tick(d, cfg, p).idle && Tick(d, cfg, p).session.None?
    ensures OpenIds(Tick(d, cfg, p).rows) == {}
  {
  }

  /** Pausing from the tray ends the session: afterwards no row is open. */
  lemma PauseEndsSession(d: Daemon, cfg: Config.Config, now: int)
    requires Inv(d) && d.running
    ensures OpenIds(Step(d, cfg, PauseCommand(now)).rows) == {}
    ensures Step(d, cfg, PauseCommand(now)).session.None?
  {
  }
}
