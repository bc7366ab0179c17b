/** The five regular expressions of src/title_parser.rs, written out as
    matchers over Unicode strings.

    Rust's `regex` crate reports the leftmost-first match: among the ways
    the pattern can match from the leftmost start, the one a backtracking
    engine meets first. A lazy group `(.+?)` therefore ends at the smallest
    position from which the rest of the pattern matches, and when a group's
    start depends on earlier greedy or optional parts, those starts are
    tried in priority order. Each matcher below lists those candidate
    starts in that order and takes the first one that works.

    `\s` is the Unicode White_Space property (`Text.IsSpace`), `.` is any
    character but `\n`, and `(?i)` compares letters by Unicode simple case
    folding. `\d` is taken as the ASCII digits. */
module Patterns {
  import opened Wrappers
  import opened Text
  import opened Search

  /** `(?i)` comparison of a character against a lower-case ASCII pattern
      character: besides upper and lower case, `s` also matches U+017F
      (long s) and `k` also matches U+212A (Kelvin sign). */
  predicate FoldEq(c: char, p: char) {
    LowerChar(c) == p || (p == 's' && c == '\U{017F}') || (p == 'k' && c == '\U{212A}')
  }

  /** The case-insensitive literal `lit` (written in lower case) occurs at `i`. */
  predicate MatchesAtI(s: string, i: nat, lit: string) {
    i + |lit| <= |s| && forall k :: 0 <= k < |lit| ==> FoldEq(s[i + k], lit[k])
  }

  /** `[-–—]`: hyphen-minus, en dash, em dash. */
  predicate IsDash(c: char) {
    c == '-' || c == '\U{2013}' || c == '\U{2014}'
  }

  /** First position at or after `i` that is not an ASCII digit. */
  function SkipDigits(s: string, i: nat): (r: nat)
    requires i <= |s|
    ensures i <= r <= |s|
    ensures forall k :: i <= k < r ==> IsAsciiDigit(s[k])
    ensures r == |s| || !IsAsciiDigit(s[r])
    decreases |s| - i
  {
    if i == |s| || !IsAsciiDigit(s[i]) then i else SkipDigits(s, i + 1)
  }

  /** The unread-count prefix `\(\d+\)` at the start: the position just
      after its `)`. */
  function CountPrefix(s: string): (r: Option<nat>)
    ensures r.Some? ==> 3 <= r.value <= |s| && s[0] == '(' && s[r.value - 1] == ')'
  {
    if |s| == 0 || s[0] != '(' then None
    else
      var d := SkipDigits(s, 1);
      if d > 1 && d < |s| && s[d] == ')' then Some(d + 1) else None
  }

  /** How far `.` can reach from `q`: the first `\n` at or after `q`. */
  function LineEnd(s: string, q: nat): (r: nat)
    requires q <= |s|
    ensures q <= r <= |s|
    ensures forall k :: q <= k < r ==> s[k] != '\n'
    ensures r == |s| || s[r] == '\n'
    decreases |s| - q
  {
    if q == |s| || s[q] == '\n' then q else LineEnd(s, q + 1)
  }

  /** The part of a pattern that follows a lazy group. */
  datatype Stop =
    | PipeOrEnd            // \s*(?:\||$)
    | TeamsSuffix          // \s*\|\s*Microsoft Teams   (case-insensitive)
    | BrowserSuffixOrEnd   // (?:\s*[-–—]\s*(?:Brave|Chrome|Firefox|Edge))?$

  /** `\s*[-–—]\s*(?:Brave|Chrome|Firefox|Edge)$` matches from `x`. */
  predicate IsBrowserSuffix(s: string, x: nat)
    requires x <= |s|
  {
    var y := SkipSpace(s, x);
    y < |s| && IsDash(s[y]) &&
    var z := SkipSpace(s, y + 1);
    s[z..] == "Brave" || s[z..] == "Chrome" || s[z..] == "Firefox" || s[z..] == "Edge"
  }

  /** The rest of the pattern matches from `x`. Greedy `\s*` runs are
      followed by a character `\s` excludes, so only the longest run can
      succeed. */
  predicate StopsAt(s: string, x: nat, st: Stop)
    requires x <= |s|
  {
    match st
    case PipeOrEnd =>
      var y := SkipSpace(s, x);
      y == |s| || s[y] == '|'
    case TeamsSuffix =>
      var y := SkipSpace(s, x);
      y < |s| && s[y] == '|' && MatchesAtI(s, SkipSpace(s, y + 1), "microsoft teams")
    case BrowserSuffixOrEnd =>
      x == |s| || IsBrowserSuffix(s, x)
  }

  /** The end of a lazy group: the smallest `x` in `[lo, hi]` from which
      the rest of the pattern matches. */
  function LazyEnd(s: string, lo: nat, hi: nat, st: Stop): (r: Option<nat>)
    requires hi <= |s|
    ensures r.Some? ==> lo <= r.value <= hi && StopsAt(s, r.value, st)
    ensures r.Some? ==> forall y :: lo <= y < r.value ==> !StopsAt(s, y, st)
    ensures r.None? ==> forall y :: lo <= y <= hi ==> !StopsAt(s, y, st)
    decreases hi + 1 - lo
  {
    if lo > hi then None
    else if StopsAt(s, lo, st) then Some(lo)
    else LazyEnd(s, lo + 1, hi, st)
  }

  /** The first position from which the rest matches is where the lazy
      group ends. */
  lemma {:induction false} LazyEndAt(s: string, lo: nat, hi: nat, m: nat, st: Stop)
    requires lo <= m <= hi <= |s|
    requires forall y :: lo <= y < m ==> !StopsAt(s, y, st)
    requires StopsAt(s, m, st)
    ensures LazyEnd(s, lo, hi, st) == Some(m)
    decreases m - lo
  {
    if lo < m {
      LazyEndAt(s, lo + 1, hi, m, st);
    }
  }

  /** The lazy group `(.+?)` started at `q`: at least one character, no
      `\n`, ending as early as possible. */
  function GroupEnd(s: string, q: nat, st: Stop): (r: Option<nat>)
    requires q <= |s|
    ensures r.Some? ==> q < r.value <= |s| && StopsAt(s, r.value, st)
    ensures r.Some? ==> forall k :: q <= k < r.value ==> s[k] != '\n'
  {
    LazyEnd(s, q + 1, LineEnd(s, q), st)
  }

  /** The integers `hi, hi - 1, ..., lo`: the starts a greedy run of
      spaces offers, longest run first. */
  function Desc(hi: nat, lo: nat): (r: seq<nat>)
    ensures |r| == if hi >= lo then hi - lo + 1 else 0
    ensures forall i :: 0 <= i < |r| ==> r[i] == hi - i
    decreases hi + 1 - lo
  {
    if hi < lo then [] else [hi] + (if hi == 0 then [] else Desc(hi - 1, lo))
  }

  /** For each candidate start, whether the lazy group can end after it. */
  function StartFlags(s: string, qs: seq<nat>, st: Stop): (oks: seq<bool>)
    requires forall i :: 0 <= i < |qs| ==> qs[i] <= |s|
    ensures |oks| == |qs|
    ensures forall i :: 0 <= i < |qs| ==> oks[i] == GroupEnd(s, qs[i], st).Some?
  {
    seq(|qs|, i requires 0 <= i < |qs| => GroupEnd(s, qs[i], st).Some?)
  }

  /** The position in `qs` of the first candidate start, in priority
      order, from which the lazy group and the rest of the pattern match. */
  function FirstStart(s: string, qs: seq<nat>, st: Stop): (r: Option<nat>)
    requires forall i :: 0 <= i < |qs| ==> qs[i] <= |s|
    ensures r.Some? ==> r.value < |qs| && GroupEnd(s, qs[r.value], st).Some?
  {
    if |qs| == 0 then None else FirstTrue(StartFlags(s, qs, st), 0, |qs| - 1)
  }

  /** The capture of the first start that works, with the group's end. */
  function FirstCapture(s: string, qs: seq<nat>, st: Stop): (r: Option<(nat, nat)>)
    requires forall i :: 0 <= i < |qs| ==> qs[i] <= |s|
    ensures r.Some? ==> r.value.0 < r.value.1 <= |s|
    ensures r.Some? ==> forall k :: r.value.0 <= k < r.value.1 ==> s[k] != '\n'
  {
    match FirstStart(s, qs, st)
    case None => None
    case Some(i) => Some((qs[i], GroupEnd(s, qs[i], st).value))
  }

  /** The capture comes from the first start, in priority order, from which
      the group can end. */
  lemma FirstCapturePriority(s: string, qs: seq<nat>, st: Stop)
    requires forall i :: 0 <= i < |qs| ==> qs[i] <= |s|
    ensures var r := FirstCapture(s, qs, st);
            r.Some? ==> exists i :: 0 <= i < |qs| && qs[i] == r.value.0
                                   && GroupEnd(s, qs[i], st) == Some(r.value.1)
                                   && forall j :: 0 <= j < i ==> GroupEnd(s, qs[j], st).None?
  {
    var r := FirstStart(s, qs, st);
    if r.Some? {
      var i := r.value;
      forall j | 0 <= j < i ensures GroupEnd(s, qs[j], st).None? {
        FirstTrueFirst(StartFlags(s, qs, st), 0, |qs| - 1, j);
      }
      assert qs[i] == FirstCapture(s, qs, st).value.0;
    }
  }

  /** There is no capture exactly when no start works. */
  lemma FirstCaptureNone(s: string, qs: seq<nat>, st: Stop)
    requires forall i :: 0 <= i < |qs| ==> qs[i] <= |s|
    ensures FirstCapture(s, qs, st).None? <==> forall i :: 0 <= i < |qs| ==> GroupEnd(s, qs[i], st).None?
  {
    if FirstStart(s, qs, st).None? {
      forall i | 0 <= i < |qs| ensures GroupEnd(s, qs[i], st).None? {
        FirstTrueNone(StartFlags(s, qs, st), 0, |qs| - 1, i);
      }
    }
  }

  /** A first start that works is the one taken. */
  lemma FirstCaptureHead(s: string, qs: seq<nat>, st: Stop)
    requires forall i :: 0 <= i < |qs| ==> qs[i] <= |s|
    requires |qs| > 0 && GroupEnd(s, qs[0], st).Some?
    ensures FirstCapture(s, qs, st) == Some((qs[0], GroupEnd(s, qs[0], st).value))
  {
    assert StartFlags(s, qs, st)[0];
  }

  /** The text a capture spans. */
  function Captured(s: string, m: (nat, nat)): (t: string)
    requires m.0 < m.1 <= |s| && forall k :: m.0 <= k < m.1 ==> s[k] != '\n'
    ensures |t| > 0 && '\n' !in t
  {
    assert forall k :: 0 <= k < m.1 - m.0 ==> s[m.0..m.1][k] == s[m.0 + k];
    s[m.0..m.1]
  }

  /** Where `(?:\(\d+\)\s*)?` leaves a pattern whose next part is a word:
      after the prefix and its spaces when there is one, else at 0. */
  function AfterCountPrefix(s: string): (p: nat)
    ensures p <= |s|
  {
    match CountPrefix(s)
    case Some(e) => SkipSpace(s, e)
    case None => 0
  }

  /** TEAMS_CALL_RE, `(?i)^(?:\(\d+\)\s*)?(?:Call|Meeting)\s*(?:with\s+)?(?:\|\s*)?(.+?)\s*(?:\||$)`:
      the text of capture group 1. */
  function CallCapture(s: string): (r: Option<string>)
    ensures r.Some? ==> |r.value| > 0 && '\n' !in r.value
  {
    var p := AfterCountPrefix(s);
    if !MatchesAtI(s, p, "call") && !MatchesAtI(s, p, "meeting") then None
    else
      var p0 := if MatchesAtI(s, p, "call") then p + 4 else p + 7;
      match FirstCapture(s, CallStarts(s, p0), PipeOrEnd)
      case None => None
      case Some(m) => Some(Captured(s, m))
  }

  /** The starts TEAMS_CALL_RE offers its group after the keyword ends at
      `p0`: `\s*` longest first; after it, `with\s+` (its spaces longest
      first) before skipping it; and `\|\s*` before skipping it. */
  function CallStarts(s: string, p0: nat): (qs: seq<nat>)
    requires p0 <= |s|
    ensures forall i :: 0 <= i < |qs| ==> qs[i] <= |s|
  {
    var a := SkipSpace(s, p0);
    if MatchesAtI(s, a, "with") && a + 4 < |s| && IsSpace(s[a + 4]) then
      var b := SkipSpace(s, a + 4);
      var top := if b < |s| && s[b] == '|' then SkipSpace(s, b + 1) else b;
      Desc(top, a + 5) + Desc(a, p0)
    else
      var top := if a < |s| && s[a] == '|' then SkipSpace(s, a + 1) else a;
      Desc(top, p0)
  }

  /** TEAMS_CHAT_RE, `(?i)^(?:\(\d+\)\s*)?Chat\s*\|\s*(.+?)\s*\|\s*Microsoft Teams`. */
  function ChatCapture(s: string): (r: Option<string>)
    ensures r.Some? ==> |r.value| > 0 && '\n' !in r.value
  {
    var p := AfterCountPrefix(s);
    if !MatchesAtI(s, p, "chat") then None
    else
      var c := SkipSpace(s, p + 4);
      if c == |s| || s[c] != '|' then None
      else
        match FirstCapture(s, Desc(SkipSpace(s, c + 1), c + 1), TeamsSuffix)
        case None => None
        case Some(m) => Some(Captured(s, m))
  }

  /** TEAMS_CHANNEL_RE, `(?i)^(?:\(\d+\)\s*)?(.+?)\s*\|\s*Microsoft Teams`.
      The optional prefix is tried first; when the rest fails after it,
      the group starts at 0 instead. */
  function ChannelCapture(s: string): (r: Option<string>)
    ensures r.Some? ==> |r.value| > 0 && '\n' !in r.value
  {
    match FirstCapture(s, ChannelStarts(s), TeamsSuffix)
    case None => None
    case Some(m) => Some(Captured(s, m))
  }

  /** The starts TEAMS_CHANNEL_RE offers its group: after the count prefix
      and its spaces (longest first), then at 0. */
  function ChannelStarts(s: string): (qs: seq<nat>)
    ensures forall i :: 0 <= i < |qs| ==> qs[i] <= |s|
    ensures |qs| > 0 && qs[|qs| - 1] == 0
  {
    match CountPrefix(s)
    case Some(e) => Desc(SkipSpace(s, e), e) + [0]
    case None => [0]
  }

  /** BROWSER_SITE_RE after group 1 ended at `x1`: `\s*[-–—]\s*` and then
      group 2 with its end. */
  function SiteAfter(s: string, x1: nat): (r: Option<(nat, nat)>)
    requires x1 <= |s|
    ensures r.Some? ==> x1 < r.value.0 < r.value.1 <= |s| && StopsAt(s, r.value.1, BrowserSuffixOrEnd)
  {
    var d := SkipSpace(s, x1);
    if d == |s| || !IsDash(s[d]) then None
    else
      var qs := Desc(SkipSpace(s, d + 1), d + 1);
      assert forall i :: 0 <= i < |qs| ==> d < qs[i] <= |s|;
      FirstCapture(s, qs, BrowserSuffixOrEnd)
  }

  /** For each possible end of group 1, whether the rest of BROWSER_SITE_RE
      can match after it. */
  function SiteEnds(s: string): (oks: seq<bool>)
    ensures |oks| == |s| + 1
    ensures forall x :: 0 <= x <= |s| ==> oks[x] == SiteAfter(s, x).Some?
  {
    seq(|s| + 1, x requires 0 <= x <= |s| => SiteAfter(s, x).Some?)
  }

  /** The lazy group 1 of BROWSER_SITE_RE: its smallest end in `[lo, hi]`
      after which the separator and group 2 match. */
  function SiteFrom(s: string, lo: nat, hi: nat): (r: Option<nat>)
    requires hi <= |s|
    ensures r.Some? ==> lo <= r.value <= hi && SiteAfter(s, r.value).Some?
  {
    FirstTrue(SiteEnds(s), lo, hi)
  }

  /** No end before the one `SiteFrom` picks works. */
  lemma SiteFromFirst(s: string, lo: nat, hi: nat, y: nat)
    requires hi <= |s| && SiteFrom(s, lo, hi).Some? && lo <= y < SiteFrom(s, lo, hi).value
    ensures SiteAfter(s, y).None?
  {
    FirstTrueFirst(SiteEnds(s), lo, hi, y);
  }

  /** `SiteFrom` finds nothing only when no end in range works. */
  lemma SiteFromNone(s: string, lo: nat, hi: nat, y: nat)
    requires hi <= |s| && SiteFrom(s, lo, hi).None? && lo <= y <= hi
    ensures SiteAfter(s, y).None?
  {
    FirstTrueNone(SiteEnds(s), lo, hi, y);
  }

  /** BROWSER_SITE_RE, `^(.+?)\s*[-–—]\s*(.+?)(?:\s*[-–—]\s*(?:Brave|Chrome|Firefox|Edge))?$`:
      the texts of groups 1 (the page) and 2 (the site). */
  function SiteCapture(s: string): (r: Option<(string, string)>)
    ensures r.Some? ==> |r.value.0| > 0 && |r.value.1| > 0
  {
    match SiteFrom(s, 1, LineEnd(s, 0))
    case None => None
    case Some(x1) =>
      var g := SiteAfter(s, x1).value;
      Some((s[..x1], s[g.0..g.1]))
  }

  /** PATH_RE, `(?:^|/)([^/]+)$`: the text after the last `/`, or the whole
      string when it has no `/`; nothing when it is empty or ends in `/`. */
  function LastSegment(s: string): (r: Option<string>)
    ensures r.None? <==> |s| == 0 || s[|s| - 1] == '/'
    ensures r.Some? ==> |r.value| > 0 && '/' !in r.value && EndsWith(s, r.value)
    ensures r.Some? && |r.value| < |s| ==> s[|s| - |r.value| - 1] == '/'
  {
    if |s| == 0 || s[|s| - 1] == '/' then None
    else
      var k := AfterLastSlash(s, |s|);
      Some(s[k..])
  }

  /** One past the last `/` in `s[..j]`, or 0. */
  function AfterLastSlash(s: string, j: nat): (k: nat)
    requires j <= |s|
    ensures k <= j
    ensures forall i :: k <= i < j ==> s[i] != '/'
    ensures k == 0 || s[k - 1] == '/'
  {
    if j == 0 || s[j - 1] == '/' then j else AfterLastSlash(s, j - 1)
  }

  /** The segment after a final `/`. */
  lemma LastSegmentOf(dir: string, name: string)
    requires |name| > 0 && '/' !in name
    ensures LastSegment(dir + "/" + name) == Some(name)
  {
    var s := dir + "/" + name;
    assert s[|s| - 1] == name[|name| - 1];
    assert forall i :: |dir| + 1 <= i < |s| ==> s[i] == name[i - |dir| - 1];
    assert s[|dir|] == '/';
    var k := AfterLastSlash(s, |s|);
    assert k == |dir| + 1;
    assert s[k..] == name;
  }

  /** A string without `/` is its own last segment. */
  lemma LastSegmentNoSlash(s: string)
    requires |s| > 0 && '/' !in s
    ensures LastSegment(s) == Some(s)
  {
    assert AfterLastSlash(s, |s|) == 0;
  }
}
