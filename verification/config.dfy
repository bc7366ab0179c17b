/** Tracked-app rules and the window matcher (src/config.rs). */
module Config {
  import opened Wrappers
  import opened Text
  import opened Search

  /** Which field of the window a rule's pattern is tested against. */
  datatype MatchType = WindowClass | WindowTitle | Process

  datatype TrackedApp = TrackedApp(name: string, matchType: MatchType, pattern: string, category: string)

  datatype Config = Config(idleTimeoutSecs: nat, pollIntervalSecs: nat, apps: seq<TrackedApp>)

  /** The window field a rule inspects: `Process` rules look at the window
      class, exactly like `WindowClass` rules. */
  function Field(m: MatchType, windowClass: string, windowTitle: string): (f: string)
    ensures m == WindowTitle ==> f == windowTitle
    ensures m != WindowTitle ==> f == windowClass
  {
    match m
    case WindowClass => windowClass
    case WindowTitle => windowTitle
    case Process => windowClass
  }

  /** The rule accepts the window: its lowercased pattern is a substring of
      the lowercased field. */
  predicate Accepts(app: TrackedApp, windowClass: string, windowTitle: string) {
    Contains(Lower(Field(app.matchType, windowClass, windowTitle)), Lower(app.pattern))
  }

  /** For each rule, whether it accepts the window. */
  function AcceptFlags(apps: seq<TrackedApp>, windowClass: string, windowTitle: string): (oks: seq<bool>)
    ensures |oks| == |apps|
    ensures forall k :: 0 <= k < |apps| ==> oks[k] == Accepts(apps[k], windowClass, windowTitle)
  {
    seq(|apps|, k requires 0 <= k < |apps| => Accepts(apps[k], windowClass, windowTitle))
  }

  /** Index of the first accepting rule, in list order. */
  function FirstMatch(apps: seq<TrackedApp>, windowClass: string, windowTitle: string): (r: Option<nat>)
    ensures r.Some? ==> r.value < |apps| && Accepts(apps[r.value], windowClass, windowTitle)
  {
    if |apps| == 0 then None else FirstTrue(AcceptFlags(apps, windowClass, windowTitle), 0, |apps| - 1)
  }

  /** No rule before the one `FirstMatch` picks accepts the window. */
  lemma FirstMatchFirst(apps: seq<TrackedApp>, windowClass: string, windowTitle: string, j: nat)
    requires FirstMatch(apps, windowClass, windowTitle).Some?
    requires j < FirstMatch(apps, windowClass, windowTitle).value
    ensures !Accepts(apps[j], windowClass, windowTitle)
  {
    FirstTrueFirst(AcceptFlags(apps, windowClass, windowTitle), 0, |apps| - 1, j);
  }

  /** An accepting rule means `FirstMatch` finds one, at or before it. */
  lemma FirstMatchFound(apps: seq<TrackedApp>, windowClass: string, windowTitle: string, k: nat)
    requires k < |apps| && Accepts(apps[k], windowClass, windowTitle)
    ensures FirstMatch(apps, windowClass, windowTitle).Some?
    ensures FirstMatch(apps, windowClass, windowTitle).value <= k
  {
    FirstTrueFound(AcceptFlags(apps, windowClass, windowTitle), 0, |apps| - 1, k);
  }

  /** `FirstMatch` picks the first accepting rule in list order, and finds
      nothing exactly when no rule accepts. */
  lemma FirstMatchSpec(apps: seq<TrackedApp>, windowClass: string, windowTitle: string)
    ensures var r := FirstMatch(apps, windowClass, windowTitle);
            r.Some? ==> forall j :: 0 <= j < r.value ==> !Accepts(apps[j], windowClass, windowTitle)
    ensures FirstMatch(apps, windowClass, windowTitle).None? <==>
              forall j :: 0 <= j < |apps| ==> !Accepts(apps[j], windowClass, windowTitle)
  {
    var r := FirstMatch(apps, windowClass, windowTitle);
    if r.Some? {
      forall j | 0 <= j < r.value ensures !Accepts(apps[j], windowClass, windowTitle) {
        FirstMatchFirst(apps, windowClass, windowTitle, j);
      }
    } else {
      forall j | 0 <= j < |apps| ensures !Accepts(apps[j], windowClass, windowTitle) {
        if Accepts(apps[j], windowClass, windowTitle) {
          FirstMatchFound(apps, windowClass, windowTitle, j);
        }
      }
    }
  }

  /** `Config::match_window`: the first rule, in list order, whose pattern
      occurs (case-insensitively) in the rule's field; `None` when no rule
      accepts the window. */
  function MatchWindow(apps: seq<TrackedApp>, windowClass: string, windowTitle: string): (r: Option<TrackedApp>)
    ensures r.Some? <==> exists k :: 0 <= k < |apps| && Accepts(apps[k], windowClass, windowTitle)
    ensures r.Some? ==> exists k :: 0 <= k < |apps| && apps[k] == r.value
                                   && Accepts(apps[k], windowClass, windowTitle)
                                   && forall j :: 0 <= j < k ==> !Accepts(apps[j], windowClass, windowTitle)
  {
    FirstMatchSpec(apps, windowClass, windowTitle);
    match FirstMatch(apps, windowClass, windowTitle)
    case None => None
    case Some(k) => Some(apps[k])
  }

  /** Re-casing the window class, the title or any rule's pattern does not
      change which rule is chosen. */
  lemma MatchIgnoresCase(apps: seq<TrackedApp>, apps': seq<TrackedApp>,
                          c: string, c': string, t: string, t': string)
    requires Lower(c) == Lower(c') && Lower(t) == Lower(t')
    requires |apps| == |apps'|
    requires forall k :: 0 <= k < |apps| ==>
               apps'[k].matchType == apps[k].matchType && Lower(apps'[k].pattern) == Lower(apps[k].pattern)
    ensures FirstMatch(apps, c, t) == FirstMatch(apps', c', t')
  {
    forall k | 0 <= k < |apps|
      ensures Accepts(apps[k], c, t) == Accepts(apps'[k], c', t')
    {
      assert Lower(Field(apps[k].matchType, c, t)) == Lower(Field(apps'[k].matchType, c', t'));
    }
    assert AcceptFlags(apps, c, t) == AcceptFlags(apps', c', t');
  }

  /** A rule with an empty pattern accepts every window, so no rule after it
      can ever be chosen. */
  lemma EmptyPatternShadows(apps: seq<TrackedApp>, k: nat, windowClass: string, windowTitle: string)
    requires k < |apps| && apps[k].pattern == ""
    ensures FirstMatch(apps, windowClass, windowTitle).Some?
    ensures FirstMatch(apps, windowClass, windowTitle).value <= k
  {
    ContainsEmpty(Lower(Field(apps[k].matchType, windowClass, windowTitle)));
    FirstMatchFound(apps, windowClass, windowTitle, k);
  }

  /** `Config::default`: idle timeout 300 s, poll every 5 s, nine apps. */
  function Default(): (cfg: Config)
    ensures cfg.idleTimeoutSecs == 300 && cfg.pollIntervalSecs == 5
    ensures |cfg.apps| == 9
    ensures cfg.apps[0] == TrackedApp("Brave", WindowClass, "brave", "Browser")
  {
    Config(300, 5, [
      TrackedApp("Brave", WindowClass, "brave", "Browser"),
      TrackedApp("Teams", WindowTitle, "Teams", "Communication"),
      TrackedApp("Ghostty", WindowClass, "ghostty", "Terminal"),
      TrackedApp("Terminus", WindowClass, "terminus", "Terminal"),
      TrackedApp("Claude Code", WindowTitle, "Claude", "Development"),
      TrackedApp("VS Code", WindowClass, "code", "Development"),
      TrackedApp("Obsidian", WindowClass, "obsidian", "Notes"),
      TrackedApp("OnlyOffice", WindowClass, "onlyoffice", "Office"),
      TrackedApp("Dolphin", WindowClass, "dolphin", "Files")
    ])
  }

  /** With the default rules, any window whose class contains "brave" in
      any letter case is tracked as the Brave browser, whatever its title. */
  lemma DefaultMatchesBrave(windowClass: string, windowTitle: string)
    requires Contains(Lower(windowClass), "brave")
    ensures MatchWindow(Default().apps, windowClass, windowTitle)
            == Some(TrackedApp("Brave", WindowClass, "brave", "Browser"))
  {
    LowerNoUpper("brave");
    assert Accepts(Default().apps[0], windowClass, windowTitle);
  }

  /** The scenario "brave-browser" against the default rules. */
  lemma BraveBrowserScenario(windowClass: string, windowTitle: string)
    requires windowClass == "brave-browser"
    ensures MatchWindow(Default().apps, windowClass, windowTitle)
            == Some(TrackedApp("Brave", WindowClass, "brave", "Browser"))
  {
    LowerNoUpper(windowClass);
    ContainsPrefix(windowClass, "brave");
    DefaultMatchesBrave(windowClass, windowTitle);
  }
}
