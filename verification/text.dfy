/** String helpers shared by the model: Rust's `char::is_whitespace`, `trim`,
    ASCII lowercasing, substring search, `replace(pat, "")`,
    `trim_end_matches(pat)` and decimal rendering of integers. Strings are
    sequences of Unicode scalar values, so `|s|` is Rust's `chars().count()`. */
module Text {
  import opened Wrappers

  /** The Unicode White_Space property, which is what Rust's
      `char::is_whitespace`, `str::trim` and the regex class `\s` test. */
  predicate IsSpace(c: char) {
    ('\U{0009}' <= c <= '\U{000D}') || c == ' ' || c == '\U{0085}' || c == '\U{00A0}'
    || c == '\U{1680}' || ('\U{2000}' <= c <= '\U{200A}') || c == '\U{2028}'
    || c == '\U{2029}' || c == '\U{202F}' || c == '\U{205F}' || c == '\U{3000}'
  }

  predicate IsAsciiDigit(c: char) {
    '0' <= c <= '9'
  }

  /** First position at or after `i` that is not whitespace (or `|s|`). */
  function SkipSpace(s: string, i: nat): (r: nat)
    requires i <= |s|
    ensures i <= r <= |s|
    ensures forall k :: i <= k < r ==> IsSpace(s[k])
    ensures r == |s| || !IsSpace(s[r])
    decreases |s| - i
  {
    if i == |s| || !IsSpace(s[i]) then i else SkipSpace(s, i + 1)
  }

  /** First position at or after `i` that is whitespace (or `|s|`). */
  function SkipNonSpace(s: string, i: nat): (r: nat)
    requires i <= |s|
    ensures i <= r <= |s|
    ensures forall k :: i <= k < r ==> !IsSpace(s[k])
    ensures r == |s| || IsSpace(s[r])
    decreases |s| - i
  {
    if i == |s| || IsSpace(s[i]) then i else SkipNonSpace(s, i + 1)
  }

  /** One past the last non-whitespace character of `s[..j]` (or 0). */
  function BackSpace(s: string, j: nat): (r: nat)
    requires j <= |s|
    ensures r <= j
    ensures forall k :: r <= k < j ==> IsSpace(s[k])
    ensures r == 0 || !IsSpace(s[r - 1])
  {
    if j == 0 || !IsSpace(s[j - 1]) then j else BackSpace(s, j - 1)
  }

  /** Rust's `str::trim`: the slice without leading and trailing whitespace. */
  function Trim(s: string): (r: string)
    ensures |r| <= |s|
    ensures exists a, b :: 0 <= a <= b <= |s| && r == s[a..b]
                           && (forall k :: 0 <= k < a ==> IsSpace(s[k]))
                           && (forall k :: b <= k < |s| ==> IsSpace(s[k]))
    ensures |r| > 0 ==> !IsSpace(r[0]) && !IsSpace(r[|r| - 1])
    ensures (forall k :: 0 <= k < |s| ==> !IsSpace(s[k])) ==> r == s
  {
    var a := SkipSpace(s, 0);
    var b := BackSpace(s, |s|);
    if b <= a then
      assert forall k :: 0 <= k < |s| ==> IsSpace(s[k]);
      s[0..0]
    else
      s[a..b]
  }

  /** A string whose first and last characters are not whitespace is its
      own trim. */
  lemma TrimNonSpaceEnds(s: string)
    requires |s| > 0 && !IsSpace(s[0]) && !IsSpace(s[|s| - 1])
    ensures Trim(s) == s
  {
    assert SkipSpace(s, 0) == 0;
    assert BackSpace(s, |s|) == |s|;
    assert s[0..|s|] == s;
  }

  /** Rust's `str::trim_start_matches` with a set of characters: drops the
      longest prefix made only of those characters. */
  function TrimStartChars(s: string, cs: set<char>): (r: string)
    ensures |r| <= |s| && r == s[|s| - |r|..]
    ensures forall k :: 0 <= k < |s| - |r| ==> s[k] in cs
    ensures |r| == 0 || r[0] !in cs
  {
    if |s| == 0 || s[0] !in cs then s
    else
      var r := TrimStartChars(s[1..], cs);
      assert s[1..][|s| - 1 - |r|..] == s[|s| - |r|..];
      r
  }

  /** ASCII lowercasing of one character. */
  function LowerChar(c: char): (r: char)
    ensures 'A' <= c <= 'Z' ==> r as int == c as int + 32
    ensures !('A' <= c <= 'Z') ==> r == c
    ensures !('A' <= r <= 'Z')
  {
    if 'A' <= c <= 'Z' then (c as int + 32) as char else c
  }

  /** ASCII lowercasing of a string (see README for the Unicode difference). */
  function Lower(s: string): (r: string)
    ensures |r| == |s|
    ensures forall k :: 0 <= k < |s| ==> r[k] == LowerChar(s[k])
  {
    if |s| == 0 then [] else [LowerChar(s[0])] + Lower(s[1..])
  }

  lemma LowerAppend(a: string, b: string)
    ensures Lower(a + b) == Lower(a) + Lower(b)
  {
    assert forall k :: 0 <= k < |a + b| ==> (a + b)[k] == if k < |a| then a[k] else b[k - |a|];
  }

  /** Lowercasing is idempotent, so re-casing before a lowercased
      comparison changes nothing. */
  lemma LowerIdempotent(s: string)
    ensures Lower(Lower(s)) == Lower(s)
  {
  }

  /** Lowercasing a string with no upper-case ASCII letter changes nothing. */
  lemma LowerNoUpper(s: string)
    requires forall k :: 0 <= k < |s| ==> !('A' <= s[k] <= 'Z')
    ensures Lower(s) == s
  {
  }

  predicate StartsWith(s: string, p: string) {
    |p| <= |s| && s[..|p|] == p
  }

  predicate EndsWith(s: string, p: string) {
    |p| <= |s| && s[|s| - |p|..] == p
  }

  /** `p` occurs in `s` at position `i`. */
  predicate OccursAt(s: string, p: string, i: int) {
    0 <= i && i + |p| <= |s| && s[i..i + |p|] == p
  }

  /** Rust's `str::contains(&str)`: a search from the left. */
  function Contains(s: string, p: string): (r: bool)
    ensures r <==> exists i :: OccursAt(s, p, i)
    decreases |s|
  {
    if |p| > |s| then false
    else if s[..|p|] == p then
      assert OccursAt(s, p, 0);
      true
    else
      ContainsShift(s, p);
      Contains(s[1..], p)
  }

  /** When `p` is not a prefix of `s`, it occurs in `s` exactly when it
      occurs in `s[1..]`. */
  lemma ContainsShift(s: string, p: string)
    requires |p| <= |s| && s[..|p|] != p
    ensures |s| > 0
    ensures (exists i :: OccursAt(s, p, i)) <==> (exists i :: OccursAt(s[1..], p, i))
  {
    forall i | OccursAt(s[1..], p, i) ensures OccursAt(s, p, i + 1) {
      assert s[1..][i..i + |p|] == s[i + 1..i + 1 + |p|];
    }
    forall i | OccursAt(s, p, i) ensures i >= 1 && OccursAt(s[1..], p, i - 1) {
      assert s[..|p|] == s[0..|p|];
      assert i != 0;
      assert s[1..][i - 1..i - 1 + |p|] == s[i..i + |p|];
    }
  }

  /** A prefix of `s` occurs in `s`. */
  lemma ContainsPrefix(s: string, p: string)
    requires StartsWith(s, p)
    ensures Contains(s, p)
  {
    assert OccursAt(s, p, 0);
  }

  /** The empty pattern occurs in every string. */
  lemma ContainsEmpty(s: string)
    ensures Contains(s, "")
  {
    assert OccursAt(s, "", 0);
  }

  /** Position of the first `c` in `s`, as `str::find(char)`. */
  function Find(s: string, c: char): (r: Option<nat>)
    ensures r.Some? ==> r.value < |s| && s[r.value] == c && c !in s[..r.value]
    ensures r.None? <==> c !in s
  {
    if |s| == 0 then None
    else if s[0] == c then Some(0)
    else
      match Find(s[1..], c)
      case None => None
      case Some(k) =>
        assert s[..k + 1] == [s[0]] + s[1..][..k];
        Some(k + 1)
  }

  /** `Find` reports the first occurrence. */
  lemma {:induction false} FindAt(s: string, c: char, i: nat)
    requires i < |s| && s[i] == c && c !in s[..i]
    ensures Find(s, c) == Some(i)
    decreases i
  {
    if i > 0 {
      assert s[0] == s[..i][0];
      assert s[1..][..i - 1] == s[..i][1..];
      FindAt(s[1..], c, i - 1);
    }
  }

  /** Rust's `str::replace(pat, "")`: removes every occurrence of `pat`,
      scanning left to right without overlaps. An empty pattern inserts the
      empty replacement between characters, which changes nothing. */
  function RemoveAll(s: string, pat: string): (r: string)
    ensures |r| <= |s|
    ensures |pat| > 0 && |s| < |pat| ==> r == s
    ensures |pat| > 0 && !Contains(s, pat) ==> r == s
    ensures |pat| > 0 && Contains(s, pat) ==> |r| <= |s| - |pat|
    decreases |s|
  {
    if |pat| == 0 || |s| == 0 then s
    else if StartsWith(s, pat) then
      assert OccursAt(s, pat, 0);
      RemoveAll(s[|pat|..], pat)
    else if |pat| <= |s| then
      ContainsShift(s, pat);
      assert s == [s[0]] + s[1..];
      [s[0]] + RemoveAll(s[1..], pat)
    else [s[0]] + RemoveAll(s[1..], pat)
  }

  /** A pattern with a character the string lacks cannot occur in it, so
      removing it changes nothing. */
  lemma {:induction false} RemoveAllMissingChar(s: string, pat: string, i: nat)
    requires i < |pat| && pat[i] !in s
    ensures RemoveAll(s, pat) == s
    decreases |s|
  {
    if |s| > 0 {
      if i < |s| && |pat| <= |s| {
        assert s[..|pat|][i] == s[i] && s[i] in s;
      }
      assert !StartsWith(s, pat);
      RemoveAllMissingChar(s[1..], pat, i);
      assert s == [s[0]] + s[1..];
    }
  }

  /** No occurrence of `pat` can start inside a prefix lacking the first
      character of `pat`: the prefix passes through untouched. */
  lemma {:induction false} RemoveAllAppend(a: string, b: string, pat: string)
    requires |pat| > 0 && pat[0] !in a
    ensures RemoveAll(a + b, pat) == a + RemoveAll(b, pat)
    decreases |a|
  {
    if |a| > 0 {
      var s := a + b;
      assert s[0] == a[0];
      assert !StartsWith(s, pat);
      assert s[1..] == a[1..] + b;
      RemoveAllAppend(a[1..], b, pat);
      assert a == [a[0]] + a[1..];
    } else {
      assert a + b == b;
    }
  }

  /** Rust's `str::trim_end_matches(pat)` for a string pattern: strips the
      suffix `pat` as long as it is there. */
  function TrimEndMatches(s: string, pat: string): (r: string)
    ensures |r| <= |s| && r == s[..|r|]
    ensures |pat| > 0 ==> !EndsWith(r, pat)
    ensures |pat| == 0 ==> r == s
    decreases |s|
  {
    if |pat| == 0 || !EndsWith(s, pat) then s
    else TrimEndMatches(s[..|s| - |pat|], pat)
  }

  /** `k` copies of `p`, one after another. */
  function Repeat(p: string, k: nat): string {
    if k == 0 then "" else Repeat(p, k - 1) + p
  }

  /** What `TrimEndMatches` strips is a whole number of copies of the
      pattern. */
  lemma {:induction false} TrimEndMatchesRepeat(s: string, pat: string)
    ensures exists k: nat :: s == TrimEndMatches(s, pat) + Repeat(pat, k)
    decreases |s|
  {
    var r := TrimEndMatches(s, pat);
    if |pat| == 0 || !EndsWith(s, pat) {
      assert s == r + Repeat(pat, 0);
    } else {
      var t := s[..|s| - |pat|];
      TrimEndMatchesRepeat(t, pat);
      assert r == TrimEndMatches(t, pat);
      var k: nat :| t == r + Repeat(pat, k);
      SplitEnd(s, |s| - |pat|);
      assert s[|s| - |pat|..] == pat;
      ConcatAssoc(r, Repeat(pat, k), pat);
      assert Repeat(pat, k + 1) == Repeat(pat, k) + pat;
    }
  }

  lemma SplitEnd<T>(s: seq<T>, n: nat)
    requires n <= |s|
    ensures s == s[..n] + s[n..]
  {
  }

  lemma ConcatAssoc<T>(a: seq<T>, b: seq<T>, c: seq<T>)
    ensures a + (b + c) == (a + b) + c
  {
  }

  /** A string whose `k`-th character from the end differs from the
      pattern's does not end with the pattern. */
  lemma NotEndsWithAt(s: string, pat: string, k: nat)
    requires 1 <= k <= |pat| && k <= |s| && s[|s| - k] != pat[|pat| - k]
    ensures !EndsWith(s, pat)
  {
    if |pat| <= |s| {
      assert s[|s| - |pat|..][|pat| - k] == s[|s| - k];
    }
  }

  /** Lowercasing commutes with slicing. */
  lemma LowerSlice(s: string, i: nat, j: nat)
    requires i <= j <= |s|
    ensures Lower(s)[i..j] == Lower(s[i..j])
  {
    assert forall k :: 0 <= k < j - i ==> Lower(s)[i..j][k] == Lower(s[i..j])[k];
  }

  /** Appending the pattern once more does not change what
      `trim_end_matches` leaves. */
  lemma TrimEndMatchesAppend(s: string, pat: string)
    ensures TrimEndMatches(s + pat, pat) == TrimEndMatches(s, pat)
  {
    if |pat| > 0 {
      assert EndsWith(s + pat, pat);
      assert (s + pat)[..|s + pat| - |pat|] == s;
    }
  }

  /** Decimal digits of a natural number, without leading zeros. */
  function NatToString(n: nat): (r: string)
    ensures |r| > 0
    ensures forall k :: 0 <= k < |r| ==> IsAsciiDigit(r[k])
    ensures |r| > 1 ==> r[0] != '0'
    decreases n
  {
    if n < 10 then [DigitChar(n)]
    else NatToString(n / 10) + [DigitChar(n % 10)]
  }

  function DigitChar(d: nat): (c: char)
    requires d < 10
    ensures IsAsciiDigit(c) && c as int - '0' as int == d
  {
    (d + '0' as int) as char
  }

  predicate AllDigits(s: string) {
    forall k :: 0 <= k < |s| ==> IsAsciiDigit(s[k])
  }

  /** The value of a string of decimal digits. */
  function DigitsValue(s: string): (n: nat)
    requires forall k :: 0 <= k < |s| ==> IsAsciiDigit(s[k])
  {
    if |s| == 0 then 0
    else
      assert IsAsciiDigit(s[|s| - 1]);
      10 * DigitsValue(s[..|s| - 1]) + (s[|s| - 1] as int - '0' as int)
  }

  /** SQLite's BINARY collation on UTF-8 text: `a` sorts at or before `b`.
      UTF-8 byte order agrees with code point order, so the comparison runs
      character by character, and a proper prefix sorts first. */
  predicate LexLe(a: string, b: string) {
    |a| == 0 || (|b| > 0 && (a[0] < b[0] || (a[0] == b[0] && LexLe(a[1..], b[1..]))))
  }

  lemma LexLeRefl(a: string)
    ensures LexLe(a, a)
  {
  }

  /** Any two strings are comparable. */
  lemma {:induction false} LexLeTotal(a: string, b: string)
    ensures LexLe(a, b) || LexLe(b, a)
  {
    if |a| > 0 && |b| > 0 && a[0] == b[0] {
      LexLeTotal(a[1..], b[1..]);
    }
  }

  /** Two strings that sort at or before each other are equal. */
  lemma {:induction false} LexLeAntisymmetric(a: string, b: string)
    requires LexLe(a, b) && LexLe(b, a)
    ensures a == b
  {
    if |a| > 0 {
      LexLeAntisymmetric(a[1..], b[1..]);
      assert a == [a[0]] + a[1..] && b == [b[0]] + b[1..];
    }
  }

  /** The order is transitive. */
  lemma {:induction false} LexLeTrans(a: string, b: string, c: string)
    requires LexLe(a, b) && LexLe(b, c)
    ensures LexLe(a, c)
  {
    if |a| > 0 && |b| > 0 && |c| > 0 && a[0] == b[0] && b[0] == c[0] {
      LexLeTrans(a[1..], b[1..], c[1..]);
    }
  }

  /** Rendering then reading back a number gives the number. */
  lemma {:induction false} NatToStringRoundTrip(n: nat)
    ensures DigitsValue(NatToString(n)) == n
    decreases n
  {
    if n >= 10 {
      NatToStringRoundTrip(n / 10);
      var s := NatToString(n);
      assert s[..|s| - 1] == NatToString(n / 10);
    }
  }

  /** Rust's `{}` formatting of a signed integer. */
  function IntToString(i: int): (r: string)
    ensures i >= 0 ==> r == NatToString(i)
    ensures i < 0 ==> r == "-" + NatToString(-i)
  {
    if i >= 0 then NatToString(i) else "-" + NatToString(-i)
  }

  /** Rust's integer `/`, which truncates toward zero. */
  function TDiv(a: int, b: int): (q: int)
    requires b > 0
    ensures a >= 0 ==> 0 <= a - q * b < b
    ensures a < 0 ==> -b < a - q * b <= 0
  {
    if a >= 0 then a / b else -((-a) / b)
  }

  /** Rust's integer `%`, whose result takes the sign of the dividend. */
  function TRem(a: int, b: int): (r: int)
    requires b > 0
    ensures a == TDiv(a, b) * b + r
    ensures a >= 0 ==> 0 <= r < b
    ensures a < 0 ==> -b < r <= 0
  {
    a - TDiv(a, b) * b
  }
}
