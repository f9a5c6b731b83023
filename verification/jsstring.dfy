/**
 * The handful of JavaScript string built-ins the assistant relies on:
 * `trim`, `toLowerCase`, `includes`, `indexOf`, `replace` with a string
 * pattern, and `split` with a non-empty string separator.
 */
module JsString {

  datatype Option<T> = None | Some(value: T)

  /** `pat` occurs in `s` starting at index `i`. */
  predicate OccursAt(s: string, pat: string, i: nat) {
    i + |pat| <= |s| && s[i..i + |pat|] == pat
  }

  /** `s.indexOf(pat, k)`: the first index at or after `k` where `pat` occurs. */
  function IndexFrom(s: string, pat: string, k: nat): (r: Option<nat>)
    ensures r.Some? ==> k <= r.value && OccursAt(s, pat, r.value)
    decreases |s| - k
  {
    if k + |pat| > |s| then None
    else if s[k..k + |pat|] == pat then Some(k)
    else IndexFrom(s, pat, k + 1)
  }

  /** No match lies between `k` and the index found (or the end, when none is found). */
  lemma {:induction false} IndexFromFirst(s: string, pat: string, k: nat)
    ensures var r := IndexFrom(s, pat, k);
            forall j: nat :: k <= j && (r.None? || j < r.value) ==> !OccursAt(s, pat, j)
    decreases |s| - k
  {
    if k + |pat| <= |s| && s[k..k + |pat|] != pat {
      IndexFromFirst(s, pat, k + 1);
    }
  }

  /** `s.indexOf(pat)`, with `None` for JavaScript's -1. */
  function IndexOf(s: string, pat: string): (r: Option<nat>)
    ensures r.Some? ==> OccursAt(s, pat, r.value)
  {
    IndexFrom(s, pat, 0)
  }

  /** `indexOf` finds the first occurrence: there is none before the index it returns. */
  lemma IndexOfFirst(s: string, pat: string)
    ensures var r := IndexOf(s, pat);
            forall j: nat :: (r.None? || j < r.value) ==> !OccursAt(s, pat, j)
  {
    IndexFromFirst(s, pat, 0);
  }

  /** `s.includes(pat)`. */
  predicate Includes(s: string, pat: string) {
    IndexOf(s, pat).Some?
  }

  /** `includes` holds exactly when the pattern occurs somewhere. */
  lemma IncludesIffOccurs(s: string, pat: string)
    ensures Includes(s, pat) <==> exists i: nat :: OccursAt(s, pat, i)
  {
    IndexOfFirst(s, pat);
  }

  /** An occurrence inside a slice of `s` is an occurrence in `s`. */
  lemma OccursInSlice(s: string, pat: string, a: nat, b: nat, j: nat)
    requires a <= b <= |s|
    requires OccursAt(s[a..b], pat, j)
    ensures OccursAt(s, pat, a + j)
  {
    assert j + |pat| <= b - a;
    forall k | 0 <= k < |pat|
      ensures s[a + j..a + j + |pat|][k] == pat[k]
    {
      assert s[a..b][j..j + |pat|][k] == pat[k];
    }
    assert s[a + j..a + j + |pat|] == pat;
  }

  // ---------------------------------------------------------------------
  // trim

  /**
   * The characters ECMAScript's `String.prototype.trim` removes: the
   * WhiteSpace set (TAB, VT, FF, SP, NBSP, ZWNBSP and the Unicode Zs
   * category) and the LineTerminator set (LF, CR, LS, PS).
   */
  predicate IsWhitespace(c: char) {
    c == '\t' || c == '\n' || c == '\U{000B}' || c == '\U{000C}' || c == '\r'
    || c == ' ' || c == '\U{00A0}' || c == '\U{1680}'
    || ('\U{2000}' <= c <= '\U{200A}')
    || c == '\U{2028}' || c == '\U{2029}' || c == '\U{202F}' || c == '\U{205F}'
    || c == '\U{3000}' || c == '\U{FEFF}'
  }

  predicate AllWhitespace(s: string) {
    forall i :: 0 <= i < |s| ==> IsWhitespace(s[i])
  }

  /** Neither end of `s` is whitespace. */
  predicate Trimmed(s: string) {
    s == [] || (!IsWhitespace(s[0]) && !IsWhitespace(s[|s| - 1]))
  }

  /** The length of the whitespace run at the start of `s`. */
  function LeadingWhitespace(s: string): nat {
    if s != [] && IsWhitespace(s[0]) then 1 + LeadingWhitespace(s[1..]) else 0
  }

  /** The length of the whitespace run at the end of `s`. */
  function TrailingWhitespace(s: string): nat {
    if s != [] && IsWhitespace(s[|s| - 1]) then 1 + TrailingWhitespace(s[..|s| - 1]) else 0
  }

  /** The leading run is all whitespace and is followed by a character that is not. */
  lemma {:induction false} LeadingRun(s: string)
    ensures LeadingWhitespace(s) <= |s| && AllWhitespace(s[..LeadingWhitespace(s)])
    ensures LeadingWhitespace(s) < |s| ==> !IsWhitespace(s[LeadingWhitespace(s)])
  {
    if s != [] && IsWhitespace(s[0]) {
      LeadingRun(s[1..]);
      var n := LeadingWhitespace(s);
      assert s[..n] == [s[0]] + s[1..][..n - 1];
    }
  }

  /** The trailing run is all whitespace and is preceded by a character that is not. */
  lemma {:induction false} TrailingRun(s: string)
    ensures TrailingWhitespace(s) <= |s| && AllWhitespace(s[|s| - TrailingWhitespace(s)..])
    ensures TrailingWhitespace(s) < |s| ==> !IsWhitespace(s[|s| - 1 - TrailingWhitespace(s)])
  {
    if s != [] && IsWhitespace(s[|s| - 1]) {
      TrailingRun(s[..|s| - 1]);
      var n := TrailingWhitespace(s);
      assert s[|s| - n..] == s[..|s| - 1][|s| - n..] + [s[|s| - 1]];
    }
  }

  /** `s.trim()`. */
  function Trim(s: string): (r: string)
    ensures |r| <= |s|
  {
    LeadingRun(s);
    var t := s[LeadingWhitespace(s)..];
    TrailingRun(t);
    t[..|t| - TrailingWhitespace(t)]
  }

  /** The trimmed string has no whitespace at either end, and is empty exactly for an all-whitespace input. */
  lemma TrimShape(s: string)
    ensures Trimmed(Trim(s))
    ensures Trim(s) == [] <==> AllWhitespace(s)
  {
    LeadingRun(s);
    var a := LeadingWhitespace(s);
    var t := s[a..];
    TrailingRun(t);
    assert AllWhitespace(s) ==> a == |s|;
    assert a == |s| ==> s == s[..a];
  }

  /** Trim removes whitespace from the two ends of `s` and nothing else. */
  lemma TrimDropsOnlyEdgeWhitespace(s: string)
    ensures exists a: nat, b: nat ::
      a <= b <= |s| && Trim(s) == s[a..b] && AllWhitespace(s[..a]) && AllWhitespace(s[b..])
  {
    LeadingRun(s);
    var a := LeadingWhitespace(s);
    var t := s[a..];
    TrailingRun(t);
    var n := TrailingWhitespace(t);
    var b := a + |t| - n;
    assert Trim(s) == s[a..b];
    assert s[b..] == t[|t| - n..];
  }

  /** A whitespace prefix followed by a non-whitespace character is exactly the leading run. */
  lemma {:induction false} LeadingExact(s: string, a: nat)
    requires a < |s| && AllWhitespace(s[..a]) && !IsWhitespace(s[a])
    ensures LeadingWhitespace(s) == a
  {
    if a > 0 {
      assert IsWhitespace(s[..a][0]);
      assert s[1..][..a - 1] == s[1..a];
      assert forall k :: 0 <= k < a - 1 ==> s[1..a][k] == s[..a][k + 1];
      LeadingExact(s[1..], a - 1);
    }
  }

  /** A whitespace suffix preceded by a non-whitespace character is exactly the trailing run. */
  lemma {:induction false} TrailingExact(s: string, m: nat)
    requires m < |s| && AllWhitespace(s[|s| - m..]) && !IsWhitespace(s[|s| - 1 - m])
    ensures TrailingWhitespace(s) == m
  {
    if m > 0 {
      var u := s[..|s| - 1];
      assert IsWhitespace(s[|s| - m..][m - 1]);
      var w, z := u[|u| - (m - 1)..], s[|s| - m..];
      assert forall k :: 0 <= k < m - 1 ==> w[k] == z[k];
      assert AllWhitespace(w);
      assert u[|u| - 1 - (m - 1)] == s[|s| - 1 - m];
      TrailingExact(u, m - 1);
    }
  }

  /** Trim is determined by where the first and last non-whitespace characters are. */
  lemma TrimBetween(s: string, a: nat, b: nat)
    requires a < b <= |s|
    requires AllWhitespace(s[..a]) && AllWhitespace(s[b..])
    requires !IsWhitespace(s[a]) && !IsWhitespace(s[b - 1])
    ensures Trim(s) == s[a..b]
  {
    LeadingExact(s, a);
    var t := s[a..];
    assert t[|t| - (|s| - b)..] == s[b..];
    TrailingExact(t, |s| - b);
  }

  /** A string without whitespace at its ends is its own trim. */
  lemma TrimOfTrimmed(s: string)
    requires Trimmed(s)
    ensures Trim(s) == s
  {
    if s != [] {
      assert LeadingWhitespace(s) == 0;
      assert TrailingWhitespace(s) == 0;
    }
  }

  /** Trimming twice is trimming once. */
  lemma TrimIdempotent(s: string)
    ensures Trim(Trim(s)) == Trim(s)
  {
    TrimShape(s);
    TrimOfTrimmed(Trim(s));
  }

  // ---------------------------------------------------------------------
  // toLowerCase (ASCII letters only)

  function LowerChar(c: char): (d: char)
    ensures !('A' <= d <= 'Z')
    ensures 'a' <= d <= 'z' <==> ('a' <= c <= 'z' || 'A' <= c <= 'Z')
  {
    if 'A' <= c <= 'Z' then (c as int + 32) as char else c
  }

  /** No upper-case ASCII letter occurs in `s`. */
  predicate IsLower(s: string) {
    forall i :: 0 <= i < |s| ==> !('A' <= s[i] <= 'Z')
  }

  /** `s.toLowerCase()`. */
  function Lower(s: string): (r: string)
    ensures |r| == |s|
  {
    if s == [] then [] else [LowerChar(s[0])] + Lower(s[1..])
  }

  /** `toLowerCase` maps each character on its own, and leaves no upper-case letter. */
  lemma {:induction false} LowerPointwise(s: string)
    ensures IsLower(Lower(s))
    ensures forall i :: 0 <= i < |s| ==> Lower(s)[i] == LowerChar(s[i])
  {
    if s != [] {
      LowerPointwise(s[1..]);
      assert forall i :: 1 <= i < |s| ==> Lower(s)[i] == Lower(s[1..])[i - 1];
    }
  }

  /** Lower-casing changes nothing in a string that is already lower case. */
  lemma LowerOfLower(s: string)
    requires IsLower(s)
    ensures Lower(s) == s
  {
    LowerPointwise(s);
  }

  /** Lower-casing is idempotent. */
  lemma LowerIdempotent(s: string)
    ensures Lower(Lower(s)) == Lower(s)
  {
    LowerPointwise(s);
    LowerOfLower(Lower(s));
  }

  /** A match in the original string is a match in the lower-cased string. */
  lemma IncludesLower(s: string, pat: string)
    requires Includes(s, pat)
    ensures Includes(Lower(s), Lower(pat))
  {
    var i := IndexOf(s, pat).value;
    var ls, lp := Lower(s), Lower(pat);
    LowerPointwise(s);
    LowerPointwise(pat);
    forall k | 0 <= k < |pat|
      ensures ls[i..i + |pat|][k] == lp[k]
    {
      assert s[i..i + |pat|][k] == pat[k];
      assert ls[i + k] == LowerChar(s[i + k]);
    }
    assert OccursAt(ls, lp, i);
    IndexOfFirst(ls, lp);
  }

  /** Trimming keeps a lower-case string lower case. */
  lemma TrimKeepsLower(s: string)
    requires IsLower(s)
    ensures IsLower(Trim(s))
  {
    TrimDropsOnlyEdgeWhitespace(s);
  }

  // ---------------------------------------------------------------------
  // replace and split

  /** `s.replace(pat, repl)` with a string pattern: only the first occurrence is replaced. */
  function ReplaceFirst(s: string, pat: string, repl: string): (r: string)
    ensures !Includes(s, pat) ==> r == s
    ensures Includes(s, pat) ==> |r| == |s| - |pat| + |repl|
  {
    match IndexOf(s, pat)
    case None => s
    case Some(i) => s[..i] + repl + s[i + |pat|..]
  }

  /** Removing a pattern from a lower-case string leaves it lower case. */
  lemma ReplaceFirstKeepsLower(s: string, pat: string)
    requires IsLower(s)
    ensures IsLower(ReplaceFirst(s, pat, ""))
  {
    match IndexOf(s, pat)
    case None =>
    case Some(i) =>
      assert ReplaceFirst(s, pat, "") == s[..i] + s[i + |pat|..];
  }

  /** Glue `parts` back together with `sep` between neighbours: `parts.join(sep)`. */
  function Join(parts: seq<string>, sep: string): (r: string)
    requires |parts| >= 1
  {
    if |parts| == 1 then parts[0] else parts[0] + sep + Join(parts[1..], sep)
  }

  lemma JoinCons(head: string, tail: seq<string>, sep: string)
    requires |tail| >= 1
    ensures Join([head] + tail, sep) == head + sep + Join(tail, sep)
  {
    assert ([head] + tail)[1..] == tail;
  }

  /** `s.split(sep)` for a non-empty separator and no limit. */
  function Split(s: string, sep: string): (parts: seq<string>)
    requires |sep| > 0
    ensures |parts| >= 1
    ensures |parts| == 1 <==> !Includes(s, sep)
    decreases |s|
  {
    match IndexOf(s, sep)
    case None => [s]
    case Some(i) => [s[..i]] + Split(s[i + |sep|..], sep)
  }

  /** The text before the first occurrence of `pat` does not contain `pat`. */
  lemma PrefixBeforeFirst(s: string, pat: string, i: nat)
    requires |pat| > 0 && IndexOf(s, pat) == Some(i)
    ensures !Includes(s[..i], pat)
  {
    if Includes(s[..i], pat) {
      OccursInSlice(s, pat, 0, i, IndexOf(s[..i], pat).value);
      IndexOfFirst(s, pat);
      assert false;
    }
  }

  /** No piece of a split contains the separator. */
  lemma {:induction false} SplitPiecesLackSeparator(s: string, sep: string)
    requires |sep| > 0
    ensures forall k :: 0 <= k < |Split(s, sep)| ==> !Includes(Split(s, sep)[k], sep)
    decreases |s|
  {
    match IndexOf(s, sep)
    case None =>
    case Some(i) =>
      var rest := s[i + |sep|..];
      SplitPiecesLackSeparator(rest, sep);
      SplitStep(s, sep, i);
      PrefixBeforeFirst(s, sep, i);
      ConsLacks(s[..i], Split(rest, sep), sep);
  }

  /** Putting a piece without the separator in front of pieces without it keeps them all without it. */
  lemma ConsLacks(head: string, tail: seq<string>, sep: string)
    requires !Includes(head, sep)
    requires forall k :: 0 <= k < |tail| ==> !Includes(tail[k], sep)
    ensures forall k :: 0 <= k < |[head] + tail| ==> !Includes(([head] + tail)[k], sep)
  {
    var parts := [head] + tail;
    forall k | 0 <= k < |parts|
      ensures !Includes(parts[k], sep)
    {
      if k > 0 {
        assert parts[k] == tail[k - 1];
      }
    }
  }

  /** One step of a split: the piece before the first separator, then the split of the rest. */
  lemma SplitStep(s: string, sep: string, i: nat)
    requires |sep| > 0 && IndexOf(s, sep) == Some(i)
    ensures i + |sep| <= |s|
    ensures Split(s, sep) == [s[..i]] + Split(s[i + |sep|..], sep)
    ensures s == s[..i] + sep + s[i + |sep|..]
  {
    SplitAround(s, sep, i);
  }

  lemma SplitAround(s: string, sep: string, i: nat)
    requires OccursAt(s, sep, i)
    ensures s == s[..i] + sep + s[i + |sep|..]
  {
    assert s == s[..i] + s[i..i + |sep|] + s[i + |sep|..];
  }

  /** Splitting and joining with the same separator gives back the string. */
  lemma {:induction false} JoinSplit(s: string, sep: string)
    requires |sep| > 0
    ensures Join(Split(s, sep), sep) == s
    decreases |s|
  {
    match IndexOf(s, sep)
    case None =>
    case Some(i) =>
      var rest := s[i + |sep|..];
      SplitStep(s, sep, i);
      JoinSplit(rest, sep);
      JoinCons(s[..i], Split(rest, sep), sep);
  }

  /** The first piece of a split: the text up to the first separator, or all of it. */
  lemma SplitHead(s: string, sep: string)
    requires |sep| > 0
    ensures Split(s, sep)[0] == match IndexOf(s, sep) case None => s case Some(j) => s[..j]
  {
    match IndexOf(s, sep)
    case None =>
    case Some(j) =>
      SplitStep(s, sep, j);
  }

  /** The second piece of a split: the text from the first occurrence of `sep` to the next one, or to the end. */
  lemma SplitSecond(s: string, sep: string)
    requires |sep| > 0 && Includes(s, sep)
    ensures |Split(s, sep)| >= 2
    ensures var i := IndexOf(s, sep).value;
            var rest := s[i + |sep|..];
            Split(s, sep)[1] == match IndexOf(rest, sep) case None => rest case Some(j) => rest[..j]
  {
    var i := IndexOf(s, sep).value;
    var rest := s[i + |sep|..];
    SplitStep(s, sep, i);
    SplitHead(rest, sep);
  }
}
