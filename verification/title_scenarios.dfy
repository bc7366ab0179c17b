/** The title shapes exercised by the unit tests of src/title_parser.rs,
    proved for whole families of names and paths, and the test titles
    themselves as instances. */
module TitleScenarios {
  import opened Wrappers
  import opened Text
  import opened Patterns
  import opened TitleParser

  const TeamsTail: string := " | Microsoft Teams"

  /** A case-insensitive match of a piece of `s` is a match in `s`. */
  lemma MatchesShift(s: string, i: nat, t: string, lit: string)
    requires i + |t| <= |s| && s[i..i + |t|] == t && MatchesAtI(t, 0, lit)
    ensures MatchesAtI(s, i, lit)
  {
    forall k | 0 <= k < |lit|
      ensures FoldEq(s[i + k], lit[k])
    {
      assert s[i + k] == s[i..i + |t|][k];
    }
  }

  /** Without a newline, `.` reaches the end of the string. */
  lemma {:induction false} LineEndNoNewline(s: string, q: nat)
    requires q <= |s| && '\n' !in s
    ensures LineEnd(s, q) == |s|
    decreases |s| - q
  {
    if q < |s| {
      assert s[q] in s;
      LineEndNoNewline(s, q + 1);
    }
  }

  /** A lazy group over a name without `|` that ends in a non-space
      character stops right after the name, when the rest of the pattern
      matches there. */
  lemma NameGroupEnd(s: string, q: nat, name: string, st: Stop)
    requires q + |name| <= |s| && s[q..q + |name|] == name
    requires |name| > 0 && '|' !in name && !IsSpace(name[|name| - 1])
    requires '\n' !in s
    requires st == PipeOrEnd || st == TeamsSuffix
    requires StopsAt(s, q + |name|, st)
    ensures GroupEnd(s, q, st) == Some(q + |name|)
  {
    var e := q + |name|;
    LineEndNoNewline(s, q);
    assert s[e - 1] == name[|name| - 1];
    forall y | q + 1 <= y < e
      ensures !StopsAt(s, y, st)
    {
      var z := SkipSpace(s, y);
      assert z < e;
      assert s[z] == name[z - q];
      assert name[z - q] in name;
    }
    LazyEndAt(s, q + 1, |s|, e, st);
  }

  /** ` | Microsoft Teams` completes TEAMS_CHAT_RE and TEAMS_CHANNEL_RE. */
  lemma TeamsTailStops(s: string, i: nat)
    requires i + 18 <= |s| && s[i..i + 18] == " | Microsoft Teams"
    ensures StopsAt(s, i, TeamsSuffix) && StopsAt(s, i, PipeOrEnd)
  {
    TeamsTailSpaces(s, i);
    TeamsTailWords(s, i);
  }

  lemma TeamsTailSpaces(s: string, i: nat)
    requires i + 18 <= |s| && s[i..i + 18] == " | Microsoft Teams"
    ensures SkipSpace(s, i) == i + 1 && s[i + 1] == '|' && SkipSpace(s, i + 2) == i + 3
  {
    var t := s[i..i + 18];
    assert t[0] == ' ' && t[1] == '|' && t[2] == ' ' && t[3] == 'M';
    assert s[i] == t[0] && s[i + 1] == t[1] && s[i + 2] == t[2] && s[i + 3] == t[3];
    assert SkipSpace(s, i + 1) == i + 1;
    assert SkipSpace(s, i + 3) == i + 3;
  }

  lemma TeamsTailWords(s: string, i: nat)
    requires i + 18 <= |s| && s[i..i + 18] == " | Microsoft Teams"
    ensures MatchesAtI(s, i + 3, "microsoft teams")
  {
    var t := s[i..i + 18];
    assert s[i + 3..i + 18] == t[3..] == "Microsoft Teams";
    MicrosoftTeamsFolds();
    MatchesShift(s, i + 3, "Microsoft Teams", "microsoft teams");
  }

  lemma MicrosoftTeamsFolds()
    ensures MatchesAtI("Microsoft Teams", 0, "microsoft teams")
  {
    var t := "Microsoft Teams";
    assert LowerChar(t[0]) == 'm' && LowerChar(t[10]) == 't';
  }

  /** The conditions a name must meet to be captured whole. */
  predicate PlainName(name: string) {
    |name| > 0 && '|' !in name && '\n' !in name && !IsSpace(name[0]) && !IsSpace(name[|name| - 1])
  }

  /** What the Teams patterns read from the prefix `(2) Chat | `: not a
      call; the chat keyword after the counter; the group starts after the
      `|` and its space. */
  lemma ChatPrefix(s: string)
    requires 11 < |s| && s[..11] == "(2) Chat | " && !IsSpace(s[11])
    ensures CallCapture(s).None?
    ensures AfterCountPrefix(s) == 4 && MatchesAtI(s, 4, "chat")
    ensures SkipSpace(s, 8) == 9 && s[9] == '|' && SkipSpace(s, 10) == 11
  {
    var t := s[..11];
    assert t[0] == '(' && t[1] == '2' && t[2] == ')' && t[3] == ' ' && t[4] == 'C' && t[5] == 'h';
    assert t[8] == ' ' && t[9] == '|' && t[10] == ' ';
    assert SkipDigits(s, 2) == 2;
    assert SkipDigits(s, 1) == 2;
    assert CountPrefix(s) == Some(3);
    assert SkipSpace(s, 4) == 4;
    assert SkipSpace(s, 3) == 4;
    assert !FoldEq(s[5], "call"[1]) && !FoldEq(s[4], "meeting"[0]);
    assert s[4..8] == t[4..8] == "Chat";
    assert MatchesAtI("Chat", 0, "chat");
    MatchesShift(s, 4, "Chat", "chat");
    assert SkipSpace(s, 9) == 9;
    assert SkipSpace(s, 11) == 11;
  }

  /** Where the prefix, the name and the Teams tail sit in a Teams title. */
  lemma TeamsPieces(pre: string, name: string, s: string)
    requires PlainName(name) && '\n' !in pre && s == pre + name + TeamsTail
    ensures |s| == |pre| + |name| + 18 && '\n' !in s
    ensures s[..|pre|] == pre && s[|pre|..|pre| + |name|] == name
    ensures s[|pre| + |name|..|pre| + |name| + 18] == TeamsTail
    ensures s[|pre|] == name[0]
  {
    assert s[..|pre|] == pre;
    assert s[|pre|..|pre| + |name|] == name;
    assert s[|pre| + |name|..] == TeamsTail;
  }

  /** `(2) Chat | <name> | Microsoft Teams` is a chat with `<name>`. */
  lemma ChatShape(name: string)
    requires PlainName(name)
    ensures var r := TeamsTitle("(2) Chat | " + name + TeamsTail);
            r == ParsedTitle("Chat: " + Truncate(name, 30), "chat", name)
  {
    var s := "(2) Chat | " + name + TeamsTail;
    TeamsPieces("(2) Chat | ", name, s);
    ChatCaptured(s, name);
    TrimNonSpaceEnds(name);
  }

  /** TEAMS_CHAT_RE captures the name of a chat title laid out piece by piece. */
  lemma ChatCaptured(s: string, name: string)
    requires PlainName(name) && '\n' !in s && |s| == 11 + |name| + 18
    requires s[..11] == "(2) Chat | " && s[11..11 + |name|] == name
    requires s[11 + |name|..11 + |name| + 18] == TeamsTail && s[11] == name[0]
    ensures CallCapture(s).None? && ChatCapture(s) == Some(name)
  {
    var n := |name|;
    TeamsTailStops(s, 11 + n);
    NameGroupEnd(s, 11, name, TeamsSuffix);
    ChatPrefix(s);
    assert Desc(11, 10) == [11, 10];
    FirstCaptureHead(s, [11, 10], TeamsSuffix);
  }

  /** What TEAMS_CALL_RE reads from the prefix `Call with `: the keyword
      at 0 and the candidate group starts 10, 5, 4. */
  lemma CallPrefix(s: string)
    requires 10 < |s| && s[..10] == "Call with " && !IsSpace(s[10]) && s[10] != '|'
    ensures AfterCountPrefix(s) == 0 && MatchesAtI(s, 0, "call")
    ensures CallStarts(s, 4) == [10, 5, 4]
  {
    var t := s[..10];
    assert t[0] == 'C' && t[4] == ' ' && t[5] == 'w' && t[9] == ' ';
    assert CountPrefix(s).None?;
    assert s[0..4] == t[0..4] == "Call";
    assert MatchesAtI("Call", 0, "call");
    MatchesShift(s, 0, "Call", "call");
    assert SkipSpace(s, 5) == 5;
    assert SkipSpace(s, 4) == 5;
    assert s[5..9] == t[5..9] == "with";
    assert MatchesAtI("with", 0, "with");
    MatchesShift(s, 5, "with", "with");
    assert SkipSpace(s, 10) == 10;
    assert SkipSpace(s, 9) == 10;
    assert Desc(10, 10) == [10];
    assert Desc(5, 4) == [5, 4];
  }

  /** `Call with <name> | Microsoft Teams` is a call with `<name>`. */
  lemma CallShape(name: string)
    requires PlainName(name)
    ensures var r := TeamsTitle("Call with " + name + TeamsTail);
            r == ParsedTitle("Call: " + Truncate(name, 30), "call", name)
  {
    var s := "Call with " + name + TeamsTail;
    TeamsPieces("Call with ", name, s);
    CallCaptured(s, name);
    TrimNonSpaceEnds(name);
  }

  /** TEAMS_CALL_RE captures the name of a call title laid out piece by piece. */
  lemma CallCaptured(s: string, name: string)
    requires PlainName(name) && '\n' !in s && |s| == 10 + |name| + 18
    requires s[..10] == "Call with " && s[10..10 + |name|] == name
    requires s[10 + |name|..10 + |name| + 18] == TeamsTail && s[10] == name[0]
    ensures CallCapture(s) == Some(name)
  {
    var n := |name|;
    assert name[0] in name;
    TeamsTailStops(s, 10 + n);
    NameGroupEnd(s, 10, name, PipeOrEnd);
    CallPrefix(s);
    FirstCaptureHead(s, [10, 5, 4], PipeOrEnd);
  }

  /** A display that shows a short name whole contains it. */
  lemma ShowsName(prefix: string, name: string)
    requires |name| <= 30
    ensures Contains(prefix + Truncate(name, 30), name)
  {
    assert OccursAt(prefix + name, name, |prefix|);
  }

  /** The chat test title is an instance of the chat shape. */
  lemma ChatTestTitle(title: string, name: string)
    requires title == "(2) Chat | Syed Owais Ahmed | Microsoft Teams" && name == "Syed Owais Ahmed"
    ensures PlainName(name) && |name| <= 30 && title == "(2) Chat | " + name + TeamsTail
  {
    ChatTestLayout(title, name);
  }

  lemma ChatTestLayout(title: string, name: string)
    requires title == "(2) Chat | Syed Owais Ahmed | Microsoft Teams" && name == "Syed Owais Ahmed"
    ensures title == "(2) Chat | " + name + TeamsTail
  {
  }

  /** The chat test of src/title_parser.rs. */
  lemma ChatTest(title: string)
    requires title == "(2) Chat | Syed Owais Ahmed | Microsoft Teams"
    ensures TeamsTitle(title).contextType == "chat"
    ensures Contains(TeamsTitle(title).display, "Syed Owais Ahmed")
  {
    var name := "Syed Owais Ahmed";
    ChatTestTitle(title, name);
    ChatShape(name);
    ShowsName("Chat: ", name);
  }

  /** The call test title is an instance of the call shape. */
  lemma CallTestTitle(title: string, name: string)
    requires title == "Call with John Doe | Microsoft Teams" && name == "John Doe"
    ensures PlainName(name) && |name| <= 30 && title == "Call with " + name + TeamsTail
  {
  }

  /** The call test of src/title_parser.rs. */
  lemma CallTest(title: string)
    requires title == "Call with John Doe | Microsoft Teams"
    ensures TeamsTitle(title).contextType == "call"
    ensures Contains(TeamsTitle(title).display, "John Doe")
  {
    var name := "John Doe";
    CallTestTitle(title, name);
    CallShape(name);
    ShowsName("Call: ", name);
  }

  /** A cleaned title that starts and ends with non-space characters and
      does not start with a marker glyph is left as it is. */
  lemma TerminalCleanedPlain(t: string)
    requires |t| > 0 && !IsSpace(t[0]) && !IsSpace(t[|t| - 1]) && t[0] !in Markers
    ensures TerminalCleaned(t) == t
  {
    TrimNonSpaceEnds(t);
  }

  /** A leading "modified" glyph and the space after it are stripped. */
  lemma MarkerStripped(m: char, c: string)
    requires m in Markers
    requires |c| > 0 && !IsSpace(c[0]) && !IsSpace(c[|c| - 1]) && c[0] !in Markers
    ensures TerminalCleaned([m, ' '] + c) == c
  {
    var s := [m, ' '] + c;
    assert s[0] == m && s[|s| - 1] == c[|c| - 1];
    TrimNonSpaceEnds(s);
    MarkerThenSpace(s);
    assert s[1..][1..] == c;
    TrimLeadSpace(s[1..]);
  }

  /** Stripping markers from a marker followed by a space leaves the space. */
  lemma MarkerThenSpace(s: string)
    requires |s| > 1 && s[0] in Markers && s[1] == ' '
    ensures TrimStartChars(s, Markers) == s[1..]
  {
    assert s[1..][0] == ' ';
  }

  /** A path-like title names its last folder. */
  lemma TerminalPathShape(dir: string, folder: string)
    requires |dir| > 0 && (dir[0] == '~' || dir[0] == '/')
    requires |folder| > 0 && '/' !in folder && !IsSpace(folder[|folder| - 1])
    ensures TerminalTitle(dir + "/" + folder) == ParsedTitle("Folder: " + folder, "folder", folder)
  {
    var t := dir + "/" + folder;
    assert t[0] == dir[0] && t[|t| - 1] == folder[|folder| - 1];
    TerminalCleanedPlain(t);
    LastSegmentOf(dir, folder);
  }

  /** The terminal test title is an instance of the path shape. */
  lemma TerminalTestTitle(title: string, dir: string, folder: string)
    requires title == "~/Projects/Office/FlowMode" && dir == "~/Projects/Office" && folder == "FlowMode"
    ensures title == dir + "/" + folder && |dir| > 0 && dir[0] == '~'
    ensures |folder| > 0 && '/' !in folder && !IsSpace(folder[|folder| - 1])
  {
  }

  /** The terminal-path test of src/title_parser.rs. */
  lemma TerminalTest(title: string)
    requires title == "~/Projects/Office/FlowMode"
    ensures TerminalTitle(title).contextType == "folder"
    ensures TerminalTitle(title).context == "FlowMode"
  {
    var dir, folder := "~/Projects/Office", "FlowMode";
    TerminalTestTitle(title, dir, folder);
    TerminalPathShape(dir, folder);
  }

  /** `Trim` drops one leading space. */
  lemma TrimLeadSpace(x: string)
    requires |x| > 1 && x[0] == ' ' && !IsSpace(x[1]) && !IsSpace(x[|x| - 1])
    ensures Trim(x) == x[1..]
  {
    assert SkipSpace(x, 1) == 1;
    assert SkipSpace(x, 0) == 1;
    assert BackSpace(x, |x|) == |x|;
  }

  /** The path part of `login: path`. */
  lemma HostPathOf(login: string, path: string)
    requires |login| > 0 && '@' in login && ':' !in login
    requires |path| > 0 && !IsSpace(path[0]) && !IsSpace(path[|path| - 1])
    ensures HostPath(login + ": " + path) == Some(path)
  {
    var pre := login + ": ";
    var t := pre + path;
    var i := |login|;
    assert |pre| == i + 2 && t[i + 2..] == path;
    var rest := t[i + 1..];
    assert rest[0] == ' ' && rest[1..] == path;
    assert t[..i] == login && t[i] == ':';
    var j :| 0 <= j < |login| && login[j] == '@';
    assert t[j] == '@';
    HostPathAt(t, i);
    TrimLeadSpace(rest);
  }

  /** The host path after the first `:` at `i`. */
  lemma HostPathAt(c: string, i: nat)
    requires '@' in c && i < |c| && c[i] == ':' && ':' !in c[..i]
    ensures HostPath(c) == Some(Trim(c[i + 1..]))
  {
    FindAt(c, ':', i);
  }

  /** `login: dir/folder` is not path-like and is left as it is by
      cleaning. */
  lemma HostTitle(login: string, path: string)
    requires |login| > 0 && !IsSpace(login[0]) && login[0] != '~' && login[0] != '/' && login[0] !in Markers
    requires |path| > 0 && !IsSpace(path[|path| - 1])
    ensures var t := login + ": " + path;
            TerminalCleaned(t) == t && !PathLike(t)
  {
    var t := login + ": " + path;
    assert t[0] == login[0] && t[|t| - 1] == path[|path| - 1];
    TerminalCleanedPlain(t);
  }

  /** `login: dir/folder` with an `@` in the login names the folder. */
  lemma HostPathShape(login: string, dir: string, folder: string)
    requires |login| > 0 && '@' in login && ':' !in login
    requires !IsSpace(login[0]) && login[0] != '~' && login[0] != '/' && login[0] !in Markers
    requires |dir| > 0 && !IsSpace(dir[0])
    requires |folder| > 0 && '/' !in folder && !IsSpace(folder[|folder| - 1])
    ensures TerminalTitle(login + ": " + dir + "/" + folder) == ParsedTitle("Folder: " + folder, "folder", folder)
  {
    var path := dir + "/" + folder;
    var t := login + ": " + path;
    ConcatAssoc(dir, "/", folder);
    ConcatAssoc(login + ": ", dir + "/", folder);
    ConcatAssoc(login + ": ", dir, "/");
    assert path[0] == dir[0] && path[|path| - 1] == folder[|folder| - 1];
    HostTitle(login, path);
    HostPathOf(login, path);
    LastSegmentOf(dir, folder);
    assert TerminalTitle(t) == TerminalOf(t);
  }

  /** The second word of `vim <file>` is the file. */
  lemma EditorWord(file: string)
    requires |file| > 0 && forall k :: 0 <= k < |file| ==> !IsSpace(file[k])
    ensures SecondWord("vim " + file) == file
  {
    var t := "vim " + file;
    assert t[4..] == file;
    assert t[0] == 'v' && t[1] == 'i' && t[2] == 'm' && t[3] == ' ';
    assert SkipNonSpace(t, 4) == |t|;
    assert SkipSpace(t, 4) == 4;
    assert SkipSpace(t, 3) == 4;
    assert SkipNonSpace(t, 3) == 3;
    assert SkipNonSpace(t, 0) == 3;
    assert SkipSpace(t, 0) == 0;
  }

  /** `vim <file>` is neither path-like nor a `user@host: path` title,
      and it is left as it is by cleaning. */
  lemma EditorTitle(file: string)
    requires |file| > 0 && '@' !in file
    requires forall k :: 0 <= k < |file| ==> !IsSpace(file[k])
    ensures var t := "vim " + file;
            TerminalCleaned(t) == t && !PathLike(t) && HostPath(t).None? && EditorLike(t)
  {
    var t := "vim " + file;
    assert t[0] == 'v' && t[|t| - 1] == file[|file| - 1];
    TerminalCleanedPlain(t);
    assert t[..4] == "vim ";
    assert '@' !in t;
  }

  /** `vim <file>` for a file name without spaces or `/` is an editing
      context for that file. */
  lemma EditorShape(file: string)
    requires |file| > 0 && '/' !in file && '@' !in file
    requires forall k :: 0 <= k < |file| ==> !IsSpace(file[k])
    ensures TerminalTitle("vim " + file) == ParsedTitle("Editing: " + file, "file", file)
  {
    var t := "vim " + file;
    EditorTitle(file);
    EditorWord(file);
    LastSegmentNoSlash(file);
    assert LastSegment(SecondWord(t)) == Some(file);
    assert TerminalTitle(t) == TerminalOf(t);
  }

  /** Cleaning `<name> - YouTube - Brave` drops the browser name. */
  lemma YouTubeCleaned(name: string)
    requires |name| > 0 && !IsSpace(name[0])
    ensures BrowserCleaned(name + " - YouTube - Brave") == name + " - YouTube"
  {
    var u := name + " - YouTube";
    var s := u + " - Brave";
    assert s == name + " - YouTube - Brave";
    assert s[0] == name[0] && s[|s| - 1] == 'e';
    TrimNonSpaceEnds(s);
    TrimEndMatchesAppend(u, " - Brave");
    assert u[|u| - 2] == 'b' && u[|u| - 1] == 'e';
    NotEndsWithAt(u, " - Brave", 2);
    NotEndsWithAt(u, " - Google Chrome", 2);
    NotEndsWithAt(u, " - Firefox", 1);
    NotEndsWithAt(u, " - Microsoft Edge", 2);
    assert u[0] == name[0];
    TrimNonSpaceEnds(u);
  }

  /** `<name> - YouTube` mentions YouTube. */
  lemma YouTubeSite(name: string)
    ensures SiteOf(Lower(name + " - YouTube")) == YouTube
  {
    var u := name + " - YouTube";
    var n := |name|;
    assert u[n + 3..n + 10] == "YouTube";
    LowerSlice(u, n + 3, n + 10);
    LowerYouTube();
    assert OccursAt(Lower(u), "youtube", n + 3);
  }

  lemma LowerYouTube()
    ensures Lower("YouTube") == "youtube"
  {
    assert "YouTube" == ['Y'] + "ouTube";
    assert "ouTube" == "ou" + ['T'] + "ube";
    LowerNoUpper("ou");
    LowerNoUpper("ube");
    LowerAppend(['Y'], "ouTube");
    LowerAppend("ou" + ['T'], "ube");
    LowerAppend("ou", ['T']);
  }

  /** The video title of `<name> - YouTube`: only the word is removed, so
      the dash stays. */
  lemma YouTubeVideo(name: string)
    requires |name| > 0 && !IsSpace(name[0]) && name[0] !in CounterChars && 'Y' !in name
    ensures VideoTitle(name + " - YouTube") == name + " -"
  {
    var u := name + " - YouTube";
    assert u[0] == name[0];
    assert TrimStartChars(u, CounterChars) == u;
    YouTubeWordRemoved(name);
    var w := name + " - ";
    RemoveAllMissingChar(w, "- YouTube", 2);
    TrimDashTail(name);
  }

  /** Removing the word from `<name> - YouTube` leaves `<name> - `. */
  lemma YouTubeWordRemoved(name: string)
    requires 'Y' !in name
    ensures RemoveAll(name + " - YouTube", "YouTube") == name + " - "
  {
    RemoveAllAppend(name, " - YouTube", "YouTube");
    RemoveDashWord();
  }

  lemma RemoveDashWord()
    ensures RemoveAll(" - YouTube", "YouTube") == " - "
  {
    assert " - YouTube" == " - " + "YouTube";
    RemoveAllAppend(" - ", "YouTube", "YouTube");
    RemoveWordItself();
  }

  lemma RemoveWordItself()
    ensures RemoveAll("YouTube", "YouTube") == ""
  {
    assert StartsWith("YouTube", "YouTube");
  }

  /** Trimming `<name> - ` drops only the final space. */
  lemma TrimDashTail(name: string)
    requires |name| > 0 && !IsSpace(name[0])
    ensures Trim(name + " - ") == name + " -"
  {
    var w := name + " - ";
    assert w[0] == name[0] && w[|w| - 1] == ' ' && w[|w| - 2] == '-';
    assert SkipSpace(w, 0) == 0;
    assert BackSpace(w, |w| - 1) == |w| - 1;
    assert BackSpace(w, |w|) == |w| - 1;
    assert w[0..|w| - 1] == name + " -";
  }

  /** `<name> - YouTube - Brave` is a video. The first `replace` removes
      only the word "YouTube", so the video title keeps the dash that
      preceded it: the context is `<name> -`. */
  lemma YouTubeShape(name: string)
    requires |name| > 0 && !IsSpace(name[0])
    requires name[0] !in CounterChars && 'Y' !in name
    ensures BrowserTitle(name + " - YouTube - Brave")
            == ParsedTitle("YT: " + Truncate(name + " -", 35), "video", name + " -")
  {
    YouTubeCleaned(name);
    YouTubeSite(name);
    YouTubeVideo(name);
  }

  /** The YouTube test title is an instance of the video shape. */
  lemma YouTubeTestTitle(title: string, name: string)
    requires title == "Amazing Video - YouTube - Brave" && name == "Amazing Video"
    ensures title == name + " - YouTube - Brave"
    ensures |name| > 0 && !IsSpace(name[0]) && name[0] !in CounterChars && 'Y' !in name
  {
  }

  /** The YouTube test of src/title_parser.rs. */
  lemma YouTubeTest(title: string)
    requires title == "Amazing Video - YouTube - Brave"
    ensures BrowserTitle(title).contextType == "video"
    ensures StartsWith(BrowserTitle(title).display, "YT:")
  {
    var name := "Amazing Video";
    YouTubeTestTitle(title, name);
    YouTubeShape(name);
    VideoDisplay(name + " -");
  }

  /** A video display starts with "YT:". */
  lemma VideoDisplay(v: string)
    ensures StartsWith("YT: " + Truncate(v, 35), "YT:")
  {
    assert ("YT: " + Truncate(v, 35))[..3] == "YT:";
  }
}
