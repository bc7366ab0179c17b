/** Window-title context extraction (src/title_parser.rs): a display
    string, a context type and a context for the Teams, terminal and
    browser categories, with a plain fallback on every path. */
module TitleParser {
  import opened Wrappers
  import opened Text
  import opened Patterns

  datatype ParsedTitle = ParsedTitle(display: string, contextType: string, context: string)

  const Ellipsis: char := '\U{2026}'

  /** `truncate(s, max_len)`: `s` itself when it has at most `max_len`
      characters, otherwise its first `max_len - 1` characters (none when
      `max_len` is 0) followed by an ellipsis. */
  function Truncate(s: string, maxLen: nat): (r: string)
    ensures |s| <= maxLen ==> r == s
    ensures |s| > maxLen ==> |r| == (if maxLen == 0 then 1 else maxLen)
                             && r[|r| - 1] == Ellipsis && StartsWith(s, r[..|r| - 1])
    ensures |r| <= |s| && (maxLen > 0 ==> |r| <= maxLen)
  {
    if |s| <= maxLen then s
    else
      var keep := if maxLen == 0 then 0 else maxLen - 1;
      assert (s[..keep] + [Ellipsis])[..keep] == s[..keep];
      s[..keep] + [Ellipsis]
  }

  /** Truncating twice to the same positive width is truncating once. */
  lemma TruncateIdempotent(s: string, maxLen: nat)
    requires maxLen > 0
    ensures Truncate(Truncate(s, maxLen), maxLen) == Truncate(s, maxLen)
  {
  }

  // ---------------------------------------------------------------- Teams

  /** `parse_teams_title`: the call pattern first, then the chat pattern,
      then the channel pattern; a channel named "Microsoft Teams" (in any
      case) or with an empty name stands for the app itself. */
  function TeamsTitle(title: string): (r: ParsedTitle)
    ensures r.contextType in {"call", "chat", "channel", "app"}
    ensures r.contextType == "call" <==> CallCapture(title).Some?
    ensures r.contextType == "chat" <==> CallCapture(title).None? && ChatCapture(title).Some?
    ensures r.contextType == "call" ==>
              r.context == Trim(CallCapture(title).value) && r.display == "Call: " + Truncate(r.context, 30)
    ensures r.contextType == "chat" ==>
              r.context == Trim(ChatCapture(title).value) && r.display == "Chat: " + Truncate(r.context, 30)
    ensures r.contextType == "channel" ==>
              ChannelCapture(title).Some? && r.context == Trim(ChannelCapture(title).value)
              && r.context != "" && Lower(r.context) != "microsoft teams"
              && r.display == Truncate(r.context, 40)
    ensures r.contextType == "app" ==>
              r == ParsedTitle("Teams", "app", "Microsoft Teams")
              || (r == ParsedTitle(Truncate(title, 40), "app", title) && ChannelCapture(title).None?)
    ensures r.contextType == "app" && ChannelCapture(title).Some? ==> r.display == "Teams"
    ensures CallCapture(title).None? && ChatCapture(title).None? && ChannelCapture(title).Some? ==>
              var n := Trim(ChannelCapture(title).value);
              (n != "" && Lower(n) != "microsoft teams" ==> r.contextType == "channel" && r.context == n)
              && (n == "" || Lower(n) == "microsoft teams" ==> r == ParsedTitle("Teams", "app", "Microsoft Teams"))
    ensures CallCapture(title).None? && ChatCapture(title).None? && ChannelCapture(title).None? ==>
              r == ParsedTitle(Truncate(title, 40), "app", title)
  {
    match CallCapture(title)
    case Some(g) =>
      var person := Trim(g);
      ParsedTitle("Call: " + Truncate(person, 30), "call", person)
    case None =>
      match ChatCapture(title)
      case Some(g) =>
        var person := Trim(g);
        ParsedTitle("Chat: " + Truncate(person, 30), "chat", person)
      case None =>
        match ChannelCapture(title)
        case Some(g) =>
          var channel := Trim(g);
          if Lower(channel) == "microsoft teams" || channel == "" then
            ParsedTitle("Teams", "app", "Microsoft Teams")
          else
            ParsedTitle(Truncate(channel, 40), "channel", channel)
        case None =>
          ParsedTitle(Truncate(title, 40), "app", title)
  }

  /** The chat and channel patterns both need a `|`: a title without one
      that is not a call is the Teams app itself. */
  lemma TeamsWithoutPipe(title: string)
    requires '|' !in title && CallCapture(title).None?
    ensures TeamsTitle(title) == ParsedTitle(Truncate(title, 40), "app", title)
  {
    ChatNeedsPipe(title);
    forall i | 0 <= i < |ChannelStarts(title)|
      ensures GroupEnd(title, ChannelStarts(title)[i], TeamsSuffix).None?
    {
      GroupEndNeedsPipe(title, ChannelStarts(title)[i]);
    }
  }

  /** A Teams-suffix group can only end before a `|`. */
  lemma GroupEndNeedsPipe(s: string, q: nat)
    requires q <= |s|
    ensures GroupEnd(s, q, TeamsSuffix).Some? ==> '|' in s
  {
    var g := GroupEnd(s, q, TeamsSuffix);
    if g.Some? {
      var y := SkipSpace(s, g.value);
      assert s[y] in s;
    }
  }

  /** The chat pattern needs a `|` after its keyword. */
  lemma ChatNeedsPipe(s: string)
    ensures ChatCapture(s).Some? ==> '|' in s
  {
    var p := AfterCountPrefix(s);
    if MatchesAtI(s, p, "chat") {
      var c := SkipSpace(s, p + 4);
      if c < |s| && s[c] == '|' {
        assert s[c] in s;
      }
    }
  }

  // ------------------------------------------------------------- terminal

  /** The "modified" glyphs a terminal title may start with:
      ✱ * ● ○ ◉. */
  const Markers: set<char> := {'\U{2731}', '*', '\U{25CF}', '\U{25CB}', '\U{25C9}'}

  /** The title trimmed, stripped of leading marker glyphs, trimmed again. */
  function TerminalCleaned(title: string): (r: string)
    ensures |r| > 0 ==> !IsSpace(r[0]) && !IsSpace(r[|r| - 1])
  {
    Trim(TrimStartChars(Trim(title), Markers))
  }

  /** The cleaned title is a slice of the title: what goes before it is
      whitespace and marker glyphs, what goes after it is whitespace. */
  lemma {:induction false} TerminalCleanedSlice(title: string)
    ensures exists a, b :: 0 <= a <= b <= |title| && TerminalCleaned(title) == title[a..b]
                           && (forall k :: 0 <= k < a ==> IsSpace(title[k]) || title[k] in Markers)
                           && (forall k :: b <= k < |title| ==> IsSpace(title[k]))
  {
    var t1 := Trim(title);
    var a1, b1 := TrimBounds(title);
    var t2 := TrimStartChars(t1, Markers);
    var a3, b3 := TrimBounds(t2);
    var d := |t1| - |t2|;
    var a, b := a1 + d + a3, a1 + d + b3;
    CleanedSliceJoin(title, t1, t2, a1, b1, d, a3, b3, a, b);
    assert TerminalCleaned(title) == Trim(t2);
  }

  /** Where `Trim` cuts: the result is `s[a..b]`, with whitespace before
      `a` and from `b` on. */
  lemma TrimBounds(s: string) returns (a: nat, b: nat)
    ensures a <= b <= |s| && Trim(s) == s[a..b]
    ensures forall k :: 0 <= k < a ==> IsSpace(s[k])
    ensures forall k :: b <= k < |s| ==> IsSpace(s[k])
  {
    var x := SkipSpace(s, 0);
    var y := BackSpace(s, |s|);
    if y <= x {
      a, b := 0, 0;
      assert forall k :: 0 <= k < |s| ==> IsSpace(s[k]);
    } else {
      a, b := x, y;
    }
  }

  /** The three cuts of the cleaning compose to one slice of the title. */
  lemma CleanedSliceJoin(title: string, t1: string, t2: string, a1: nat, b1: nat, d: nat, a3: nat, b3: nat,
                         a: nat, b: nat)
    requires a1 <= b1 <= |title| && t1 == title[a1..b1]
    requires forall k :: 0 <= k < a1 ==> IsSpace(title[k])
    requires forall k :: b1 <= k < |title| ==> IsSpace(title[k])
    requires d <= |t1| && t2 == t1[d..] && forall k :: 0 <= k < d ==> t1[k] in Markers
    requires a3 <= b3 <= |t2|
    requires forall k :: 0 <= k < a3 ==> IsSpace(t2[k])
    requires forall k :: b3 <= k < |t2| ==> IsSpace(t2[k])
    requires a == a1 + d + a3 && b == a1 + d + b3
    ensures a <= b <= |title|
    ensures t2[a3..b3] == title[a..b]
    ensures forall k :: 0 <= k < a ==> IsSpace(title[k]) || title[k] in Markers
    ensures forall k :: b <= k < |title| ==> IsSpace(title[k])
  {
    assert forall k :: 0 <= k < |t1| ==> t1[k] == title[a1 + k];
    assert forall k :: 0 <= k < |t2| ==> t2[k] == title[a1 + d + k];
  }

  /** The title starts like a path: `~` or `/`. */
  predicate PathLike(c: string) {
    |c| > 0 && (c[0] == '~' || c[0] == '/')
  }

  /** `user@host: path`: when the text has both `@` and `:`, the trimmed
      text after the first `:`. */
  function HostPath(c: string): (r: Option<string>)
    ensures r.Some? <==> '@' in c && ':' in c
    ensures r.Some? ==> exists i :: 0 <= i < |c| && c[i] == ':' && ':' !in c[..i] && r.value == Trim(c[i + 1..])
  {
    if '@' in c && ':' in c then
      var i := Find(c, ':').value;
      Some(Trim(c[i + 1..]))
    else None
  }

  /** A word of `s` starts at `k`: a non-whitespace character at the
      start of `s` or right after whitespace. */
  predicate WordStart(s: string, k: int) {
    0 <= k < |s| && !IsSpace(s[k]) && (k == 0 || IsSpace(s[k - 1]))
  }

  /** How many words of `s` start in `[lo, hi)`. */
  function WordsIn(s: string, lo: nat, hi: nat): nat
    requires lo <= hi <= |s|
    decreases hi - lo
  {
    if lo == hi then 0 else (if WordStart(s, lo) then 1 else 0) + WordsIn(s, lo + 1, hi)
  }

  lemma {:induction false} WordsInSplit(s: string, lo: nat, mid: nat, hi: nat)
    requires lo <= mid <= hi <= |s|
    ensures WordsIn(s, lo, hi) == WordsIn(s, lo, mid) + WordsIn(s, mid, hi)
    decreases mid - lo
  {
    if lo < mid {
      WordsInSplit(s, lo + 1, mid, hi);
    }
  }

  /** No word starts inside a run of whitespace. */
  lemma {:induction false} WordsInSpaces(s: string, lo: nat, hi: nat)
    requires lo <= hi <= |s|
    requires forall k :: lo <= k < hi ==> IsSpace(s[k])
    ensures WordsIn(s, lo, hi) == 0
    decreases hi - lo
  {
    if lo < hi {
      WordsInSpaces(s, lo + 1, hi);
    }
  }

  /** Within a run of non-whitespace only its first position can start a word. */
  lemma {:induction false} WordsInRun(s: string, lo: nat, hi: nat)
    requires lo < hi <= |s|
    requires forall k :: lo <= k < hi ==> !IsSpace(s[k])
    ensures WordsIn(s, lo + 1, hi) == 0
    decreases hi - lo
  {
    if lo + 1 < hi {
      WordsInRun(s, lo + 1, hi);
    }
  }

  /** Where the first word and the whitespace after it end: exactly one
      word starts before the second word's position `c`, when `s` has a
      word at all. */
  lemma {:induction false} WordsBeforeSecond(s: string, a: nat, b: nat, c: nat)
    requires a == SkipSpace(s, 0) && b == SkipNonSpace(s, a) && c == SkipSpace(s, b)
    ensures WordsIn(s, 0, c) == (if a < |s| then 1 else 0)
    ensures c < |s| ==> b < c && WordStart(s, c)
  {
    WordsInSpaces(s, 0, a);
    WordsInSpaces(s, b, c);
    WordsInSplit(s, 0, a, b);
    WordsInSplit(s, 0, b, c);
    if a < |s| {
      WordsInRun(s, a, b);
      assert WordStart(s, a);
    }
    if c < |s| {
      assert IsSpace(s[b]);
    }
  }

  /** `split_whitespace().nth(1)`, or "" when there is no second word: the
      whole word that starts after exactly one earlier word. */
  function SecondWord(s: string): (r: string)
    ensures forall k :: 0 <= k < |r| ==> !IsSpace(r[k])
    ensures |r| > 0 <==> WordsIn(s, 0, |s|) >= 2
    ensures |r| > 0 ==> exists i :: WordStart(s, i) && WordsIn(s, 0, i) == 1 && OccursAt(s, r, i)
                                   && (i + |r| == |s| || IsSpace(s[i + |r|]))
  {
    var a := SkipSpace(s, 0);
    var b := SkipNonSpace(s, a);
    var c := SkipSpace(s, b);
    var d := SkipNonSpace(s, c);
    WordsBeforeSecond(s, a, b, c);
    WordsInSplit(s, 0, c, |s|);
    if c == |s| then ""
    else
      assert forall k :: 0 <= k < d - c ==> s[c..d][k] == s[c + k];
      assert OccursAt(s, s[c..d], c);
      s[c..d]
  }

  /** The editor prefixes `nvim ` and `vim `. */
  predicate EditorLike(c: string) {
    StartsWith(c, "nvim ") || StartsWith(c, "vim ")
  }

  /** The decision of `parse_terminal_title` on the cleaned title `c`: a
      path-like title names its last folder; else a `user@host: path`
      title names the last folder of its path; else an editor title names
      the base name of its file; else the cleaned title itself. */
  function TerminalOf(c: string): (r: ParsedTitle)
    ensures r.contextType in {"folder", "file", "terminal"}
    ensures r.contextType != "terminal" ==> |r.context| > 0 && '/' !in r.context
    ensures r.contextType == "folder" ==> r.display == "Folder: " + r.context
    ensures r.contextType == "file" ==> r.display == "Editing: " + r.context
    ensures r.contextType == "folder" <==>
              (PathLike(c) && LastSegment(c).Some?)
              || (HostPath(c).Some? && LastSegment(HostPath(c).value).Some?)
    ensures PathLike(c) && LastSegment(c).Some? ==> r.context == LastSegment(c).value
    ensures !(PathLike(c) && LastSegment(c).Some?) && HostPath(c).Some? && LastSegment(HostPath(c).value).Some? ==>
              r.context == LastSegment(HostPath(c).value).value
    ensures r.contextType == "file" <==>
              !(PathLike(c) && LastSegment(c).Some?)
              && !(HostPath(c).Some? && LastSegment(HostPath(c).value).Some?)
              && EditorLike(c) && LastSegment(SecondWord(c)).Some?
    ensures r.contextType == "file" ==> EditorLike(c) && LastSegment(SecondWord(c)) == Some(r.context)
    ensures r.contextType == "terminal" ==> r.context == c && r.display == Truncate(c, 40)
  {
    if PathLike(c) && LastSegment(c).Some? then
      var folder := LastSegment(c).value;
      ParsedTitle("Folder: " + folder, "folder", folder)
    else if HostPath(c).Some? && LastSegment(HostPath(c).value).Some? then
      var folder := LastSegment(HostPath(c).value).value;
      ParsedTitle("Folder: " + folder, "folder", folder)
    else if EditorLike(c) && LastSegment(SecondWord(c)).Some? then
      var file := LastSegment(SecondWord(c)).value;
      ParsedTitle("Editing: " + file, "file", file)
    else
      ParsedTitle(Truncate(c, 40), "terminal", c)
  }

  /** `parse_terminal_title`. The folder, host-path and editor branches
      are stated by `TerminalOf` and shown on concrete title shapes by
      `TitleScenarios.TerminalPathShape`, `HostPathShape` and
      `EditorShape`. */
  function TerminalTitle(title: string): (r: ParsedTitle)
    ensures r.contextType == "terminal" ==> r.context == TerminalCleaned(title)
  {
    TerminalOf(TerminalCleaned(title))
  }

  // -------------------------------------------------------------- browser

  /** The title trimmed, without the browser-name suffixes, trimmed again. */
  function BrowserCleaned(title: string): (r: string)
    ensures |r| > 0 ==> !IsSpace(r[0]) && !IsSpace(r[|r| - 1])
  {
    var t := TrimEndMatches(Trim(title), " - Brave");
    var t := TrimEndMatches(t, " - Google Chrome");
    var t := TrimEndMatches(t, " - Firefox");
    var t := TrimEndMatches(t, " - Microsoft Edge");
    Trim(t)
  }

  /** The characters of a notification counter such as `(5) `. */
  const CounterChars: set<char> := {'(', ')', ' ', '0', '1', '2', '3', '4', '5', '6', '7', '8', '9'}

  /** The YouTube video title: the counter stripped, every `YouTube`
      removed, then every `- YouTube` removed, then trimmed. */
  function VideoTitle(cleaned: string): (r: string)
    ensures |r| <= |cleaned|
    ensures |r| > 0 ==> !IsSpace(r[0]) && !IsSpace(r[|r| - 1])
  {
    Trim(RemoveAll(RemoveAll(TrimStartChars(cleaned, CounterChars), "YouTube"), "- YouTube"))
  }

  /** The site families the browser parser recognises, in the order it
      tests them. */
  datatype Site = YouTube | GitHub | StackOverflow | Mail | Assistant | Docs | Other

  /** The first family whose marker occurs in the lowercased title. */
  function SiteOf(lower: string): (k: Site)
    ensures k == YouTube <==> Contains(lower, "youtube")
    ensures k == GitHub <==> !Contains(lower, "youtube") && Contains(lower, "github")
    ensures k == StackOverflow <==>
              !Contains(lower, "youtube") && !Contains(lower, "github") && Contains(lower, "stack overflow")
    ensures k in {YouTube, GitHub, StackOverflow} ||
              (k == Mail <==> Contains(lower, "inbox") || Contains(lower, "mail"))
    ensures k in {YouTube, GitHub, StackOverflow, Mail} ||
              (k == Assistant <==> Contains(lower, "chatgpt") || Contains(lower, "claude.ai"))
    ensures k in {YouTube, GitHub, StackOverflow, Mail, Assistant} ||
              (k == Docs <==> Contains(lower, "docs.google") || Contains(lower, "sheets.google")
                              || Contains(lower, "slides.google"))
  {
    if Contains(lower, "youtube") then YouTube
    else if Contains(lower, "github") then GitHub
    else if Contains(lower, "stack overflow") then StackOverflow
    else if Contains(lower, "gmail") || Contains(lower, "inbox") || Contains(lower, "mail") then
      GmailIsMail(lower);
      Mail
    else if Contains(lower, "chatgpt") || Contains(lower, "claude.ai") then Assistant
    else if Contains(lower, "docs.google") || Contains(lower, "sheets.google") || Contains(lower, "slides.google") then Docs
    else Other
  }

  /** "gmail" contains "mail", so the `gmail` test adds nothing to the
      `mail` test. */
  lemma GmailIsMail(s: string)
    ensures Contains(s, "gmail") ==> Contains(s, "mail")
  {
    if Contains(s, "gmail") {
      var i :| OccursAt(s, "gmail", i);
      assert s[i + 1..i + 5] == s[i..i + 5][1..];
      assert OccursAt(s, "mail", i + 1);
    }
  }

  /** `parse_browser_title`. */
  function BrowserTitle(title: string): (r: ParsedTitle)
    ensures var c := BrowserCleaned(title);
            r.contextType in {"video", "website", "code", "research", "email", "ai", "document"}
    ensures var c := BrowserCleaned(title);
            SiteOf(Lower(c)) == YouTube ==>
              r == ParsedTitle("YouTube", "website", "youtube.com")
              || (r.contextType == "video" && r.context == VideoTitle(c)
                  && r.context != "" && r.context != "-" && r.display == "YT: " + Truncate(r.context, 35))
    ensures var c := BrowserCleaned(title);
            r.contextType == "video" <==> SiteOf(Lower(c)) == YouTube && VideoTitle(c) != "" && VideoTitle(c) != "-"
    ensures var c := BrowserCleaned(title);
            SiteOf(Lower(c)) == GitHub <==> r.contextType == "code"
    ensures var c := BrowserCleaned(title);
            r.contextType == "code" ==> r == ParsedTitle("GitHub: " + Truncate(c, 30), "code", c)
    ensures var c := BrowserCleaned(title);
            SiteOf(Lower(c)) == StackOverflow <==> r.contextType == "research"
    ensures var c := BrowserCleaned(title);
            r.contextType == "research" ==>
              r.context == RemoveAll(c, " - Stack Overflow") && r.display == "SO: " + Truncate(r.context, 35)
    ensures var c := BrowserCleaned(title);
            SiteOf(Lower(c)) == Mail <==> r == ParsedTitle("Email", "email", c)
    ensures var c := BrowserCleaned(title);
            SiteOf(Lower(c)) == Assistant <==> r == ParsedTitle("AI Assistant", "ai", c)
    ensures var c := BrowserCleaned(title);
            SiteOf(Lower(c)) == Docs <==> r.contextType == "document"
    ensures var c := BrowserCleaned(title);
            r.contextType == "document" ==> r == ParsedTitle("Docs: " + Truncate(c, 30), "document", c)
    ensures var c := BrowserCleaned(title);
            SiteOf(Lower(c)) == Other && SiteCapture(c).Some? ==>
              r == ParsedTitle(Truncate(SiteCapture(c).value.0, 40), "website", SiteCapture(c).value.1)
    ensures var c := BrowserCleaned(title);
            SiteOf(Lower(c)) == Other && SiteCapture(c).None? ==>
              r == ParsedTitle(Truncate(c, 40), "website", c)
  {
    var c := BrowserCleaned(title);
    match SiteOf(Lower(c))
    case YouTube =>
      var v := VideoTitle(c);
      if v == "" || v == "-" then ParsedTitle("YouTube", "website", "youtube.com")
      else ParsedTitle("YT: " + Truncate(v, 35), "video", v)
    case GitHub => ParsedTitle("GitHub: " + Truncate(c, 30), "code", c)
    case StackOverflow =>
      var q := RemoveAll(c, " - Stack Overflow");
      ParsedTitle("SO: " + Truncate(q, 35), "research", q)
    case Mail => ParsedTitle("Email", "email", c)
    case Assistant => ParsedTitle("AI Assistant", "ai", c)
    case Docs => ParsedTitle("Docs: " + Truncate(c, 30), "document", c)
    case Other =>
      match SiteCapture(c)
      case Some(g) => ParsedTitle(Truncate(g.0, 40), "website", g.1)
      case None => ParsedTitle(Truncate(c, 40), "website", c)
  }

  /** A trailing " - Brave" is removed before anything is recognised, so
      it never changes the result. */
  lemma BrowserIgnoresBraveSuffix(t: string)
    requires |t| > 0 && !IsSpace(t[0]) && !IsSpace(t[|t| - 1])
    ensures BrowserTitle(t + " - Brave") == BrowserTitle(t)
  {
    var s := t + " - Brave";
    TrimNonSpaceEnds(t);
    assert s[0] == t[0] && s[|s| - 1] == 'e';
    TrimNonSpaceEnds(s);
    TrimEndMatchesAppend(t, " - Brave");
    assert BrowserCleaned(s) == BrowserCleaned(t);
  }

  // ------------------------------------------------------------- dispatch

  /** `parse_title`: the lowercased category picks the parser; a
      communication app goes to the Teams parser only when its name
      contains "teams"; any other category keeps the title and reports the
      lowercased category as its context type. */
  function ParseTitle(appName: string, category: string, title: string): (r: ParsedTitle)
    ensures Lower(category) == "terminal" ==> r == TerminalTitle(title)
    ensures Lower(category) == "browser" ==> r == BrowserTitle(title)
    ensures Lower(category) == "communication" && Contains(Lower(appName), "teams") ==> r == TeamsTitle(title)
    ensures Lower(category) == "communication" && !Contains(Lower(appName), "teams") ==>
              r == ParsedTitle(Truncate(title, 40), "communication", title)
    ensures Lower(category) !in {"terminal", "browser", "communication"} ==>
              r == ParsedTitle(Truncate(title, 40), Lower(category), title)
  {
    var cat := Lower(category);
    if cat == "communication" then
      if Contains(Lower(appName), "teams") then TeamsTitle(title)
      else ParsedTitle(Truncate(title, 40), "communication", title)
    else if cat == "terminal" then TerminalTitle(title)
    else if cat == "browser" then BrowserTitle(title)
    else ParsedTitle(Truncate(title, 40), cat, title)
  }

  /** The dispatch ignores the letter case of the category and app name. */
  lemma ParseTitleIgnoresCase(appName: string, appName': string, category: string, category': string, title: string)
    requires Lower(appName) == Lower(appName') && Lower(category) == Lower(category')
    ensures ParseTitle(appName, category, title) == ParseTitle(appName', category', title)
  {
  }

  /** Whatever the category, the context type is never empty unless the
      category itself lowercases to "". */
  lemma ContextTypeNonEmpty(appName: string, category: string, title: string)
    requires Lower(category) != ""
    ensures ParseTitle(appName, category, title).contextType != ""
  {
  }
}
