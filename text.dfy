/** The handful of Python `str` operations the analyzer and the template
    extractor rely on: substring search (`pat in s`, `re` scanning),
    `str.split()` with no argument, `str.strip(chars)` and `sep.join(parts)`.
    Whitespace is the ASCII part of what Python's `str.isspace` accepts. */
module Text {
  import opened Wrappers

  /** Characters `str.split()` and `str.strip()` treat as whitespace:
      space, tab, newline, vertical tab, form feed, carriage return and the
      four ASCII information separators 0x1C-0x1F. */
  const Whitespace: set<char> :=
    {' ', '\t', '\n', '\r', '\U{000B}', '\U{000C}', '\U{001C}', '\U{001D}', '\U{001E}', '\U{001F}'}

  predicate IsSpace(c: char) {
    c in Whitespace
  }

  // ---------------------------------------------------------------------
  // Substring search

  /** `pat` occurs in `s` starting at index `k`. */
  predicate OccursAt(s: string, pat: string, k: nat) {
    k + |pat| <= |s| && s[k..k + |pat|] == pat
  }

  /** Index of the leftmost occurrence of `pat` in `s` (Python's `s.find(pat)`,
      with `None` for -1). */
  function Find(s: string, pat: string): Option<nat>
    decreases |s|
  {
    if pat <= s then
      Some(0)
    else if s == [] then
      None
    else
      match Find(s[1..], pat)
      case None => None
      case Some(k) => Some(k + 1)
  }

  /** What `find` returns: a leftmost occurrence, or `None` when there is
      none at all. */
  lemma {:induction false} FindSpec(s: string, pat: string)
    ensures var r := Find(s, pat);
      && (r.Some? ==> OccursAt(s, pat, r.value))
      && (r.Some? ==> forall k: nat :: k < r.value ==> !OccursAt(s, pat, k))
      && (r.None? ==> forall k: nat :: !OccursAt(s, pat, k))
    decreases |s|
  {
    if pat <= s {
      assert s[..|pat|] == pat;
    } else if s != [] {
      FindSpec(s[1..], pat);
      assert !OccursAt(s, pat, 0);
      forall k: nat | 0 < k ensures OccursAt(s, pat, k) <==> OccursAt(s[1..], pat, k - 1) {
        if k + |pat| <= |s| {
          assert s[k..k + |pat|] == s[1..][k - 1..k - 1 + |pat|];
        }
      }
    }
  }

  lemma FindBound(s: string, pat: string)
    ensures Find(s, pat).Some? ==> Find(s, pat).value + |pat| <= |s|
  {
    FindSpec(s, pat);
  }

  /** Python's `pat in s` for strings. */
  predicate Contains(s: string, pat: string)
    ensures Contains(s, pat) <==> exists k: nat :: OccursAt(s, pat, k)
  {
    FindSpec(s, pat);
    var r := Find(s, pat);
    assert r.Some? ==> OccursAt(s, pat, r.value);
    r.Some?
  }

  /** A pattern with a character that `s` lacks does not occur in `s`. */
  lemma MissingChar(s: string, pat: string, j: nat)
    requires j < |pat| && pat[j] !in s
    ensures !Contains(s, pat)
  {
    forall k: nat ensures !OccursAt(s, pat, k) {
      if k + |pat| <= |s| {
        assert s[k..k + |pat|][j] == s[k + j];
      }
    }
  }

  /** An occurrence survives any text added around it. */
  lemma ContainsInContext(pre: string, s: string, post: string, pat: string)
    requires Contains(s, pat)
    ensures Contains(pre + s + post, pat)
  {
    var k: nat :| OccursAt(s, pat, k);
    var t := pre + s + post;
    var w := t[|pre| + k..|pre| + k + |pat|];
    assert forall j | 0 <= j < |w| :: w[j] == s[k..k + |pat|][j];
    assert w == s[k..k + |pat|];
    assert OccursAt(t, pat, |pre| + k);
  }

  /** A leftmost occurrence is what `Find` returns. */
  lemma FindUnique(s: string, pat: string, n: nat)
    requires OccursAt(s, pat, n)
    requires forall k: nat :: k < n ==> !OccursAt(s, pat, k)
    ensures Find(s, pat) == Some(n)
  {
    FindSpec(s, pat);
  }

  /** A two-character marker whose characters differ is found right after a
      prefix that does not contain it. */
  lemma FindAfterPrefix(pre: string, pat: string, post: string)
    requires |pat| == 2 && pat[0] != pat[1]
    requires !Contains(pre, pat)
    ensures Find(pre + pat + post, pat) == Some(|pre|)
  {
    var s := pre + pat + post;
    assert s[|pre|..|pre| + 2] == pat;
    forall k: nat | k < |pre| ensures !OccursAt(s, pat, k) {
      if k + 2 <= |pre| {
        assert s[k..k + 2] == pre[k..k + 2];
        assert !OccursAt(pre, pat, k);
      } else {
        assert s[k + 1] == pat[0];
      }
    }
    FindUnique(s, pat, |pre|);
  }

  /** No occurrence before index `j` means the prefix `s[..j]` has none. */
  lemma NoneBefore(s: string, pat: string, j: nat)
    requires |pat| > 0 && j <= |s|
    requires forall k: nat :: k < j ==> !OccursAt(s, pat, k)
    ensures !Contains(s[..j], pat)
  {
    forall k: nat | OccursAt(s[..j], pat, k) ensures false {
      assert s[..j][k..k + |pat|] == s[k..k + |pat|];
      assert OccursAt(s, pat, k);
    }
  }

  // ---------------------------------------------------------------------
  // str.strip(chars)

  /** Length of the leading run of characters of `cs`. */
  function LeadingCount(s: string, cs: set<char>): (n: nat)
    ensures n <= |s|
    ensures forall k | 0 <= k < n :: s[k] in cs
    ensures n == |s| || s[n] !in cs
    decreases |s|
  {
    if s != [] && s[0] in cs then
      var m := LeadingCount(s[1..], cs);
      assert forall k | 1 <= k < 1 + m :: s[k] == s[1..][k - 1];
      1 + m
    else 0
  }

  /** Length of the trailing run of characters of `cs`. */
  function TrailingCount(s: string, cs: set<char>): (n: nat)
    ensures n <= |s|
    ensures forall k | |s| - n <= k < |s| :: s[k] in cs
    ensures n == |s| || s[|s| - n - 1] !in cs
    decreases |s|
  {
    if s != [] && s[|s| - 1] in cs then
      var m := TrailingCount(s[..|s| - 1], cs);
      assert forall k | |s| - 1 - m <= k < |s| - 1 :: s[k] == s[..|s| - 1][k];
      1 + m
    else 0
  }

  /** `s.lstrip(chars)`: drop every leading character of `cs`. */
  function StripLeft(s: string, cs: set<char>): string {
    s[LeadingCount(s, cs)..]
  }

  /** `s.rstrip(chars)`: drop every trailing character of `cs`. */
  function StripRight(s: string, cs: set<char>): string {
    s[..|s| - TrailingCount(s, cs)]
  }

  /** `lstrip` removes exactly the leading run of characters of `cs`. */
  lemma StripLeftExactly(s: string, cs: set<char>, n: nat)
    requires n <= |s|
    requires forall k :: 0 <= k < n ==> s[k] in cs
    requires n == |s| || s[n] !in cs
    ensures StripLeft(s, cs) == s[n..]
  {
    var m := LeadingCount(s, cs);
    assert !(m < n) && !(m > n);
  }

  /** `rstrip` removes exactly the trailing run of characters of `cs`. */
  lemma StripRightExactly(s: string, cs: set<char>, n: nat)
    requires n <= |s|
    requires forall k :: n <= k < |s| ==> s[k] in cs
    requires n == 0 || s[n - 1] !in cs
    ensures StripRight(s, cs) == s[..n]
  {
    var m := |s| - TrailingCount(s, cs);
    assert !(m < n) && !(m > n);
  }

  /** `r` is `s[i..i + |r|]` and everything of `s` around it belongs to `cs`. */
  predicate StrippedAt(s: string, cs: set<char>, r: string, i: nat) {
    && i + |r| <= |s|
    && r == s[i..i + |r|]
    && (forall k :: 0 <= k < i ==> s[k] in cs)
    && (forall k :: i + |r| <= k < |s| ==> s[k] in cs)
  }

  /** `r` is `s` with only characters of `cs` removed from its two ends. */
  ghost predicate StrippedOf(s: string, cs: set<char>, r: string) {
    exists i: nat :: StrippedAt(s, cs, r, i)
  }

  /** `s.strip(chars)`: `lstrip` then `rstrip` with the same characters. */
  function StripSet(s: string, cs: set<char>): string {
    StripRight(StripLeft(s, cs), cs)
  }

  /** `strip(chars)` keeps a contiguous slice of `s` whose ends are outside
      `cs`, removing only characters of `cs` (every one at either end, not
      just one of each). */
  lemma StripSetSpec(s: string, cs: set<char>)
    ensures exists i: nat :: StrippedAt(s, cs, StripSet(s, cs), i)
    ensures var r := StripSet(s, cs); r == [] || (r[0] !in cs && r[|r| - 1] !in cs)
  {
    var a := LeadingCount(s, cs);
    var left := s[a..];
    var b := TrailingCount(left, cs);
    var r := left[..|left| - b];
    assert r == StripSet(s, cs);
    assert StrippedAt(s, cs, r, a) by {
      assert r == s[a..a + |r|];
      forall k | a + |r| <= k < |s| ensures s[k] in cs {
        assert s[k] == left[k - a];
      }
    }
    assert r != [] ==> r[0] == left[0] && r[|r| - 1] == left[|left| - b - 1];
  }

  /** `s.strip()`: whitespace removed at both ends. */
  function Strip(s: string): string {
    StripSet(s, Whitespace)
  }

  lemma StripSpec(s: string)
    ensures exists i: nat :: StrippedAt(s, Whitespace, Strip(s), i)
    ensures var r := Strip(s); r == [] || (!IsSpace(r[0]) && !IsSpace(r[|r| - 1]))
  {
    assert Strip(s) == StripSet(s, Whitespace);
    StripSetSpec(s, Whitespace);
  }

  /** Stripping with `a` and then with `b` strips with both. */
  lemma StrippedTwice(s: string, a: set<char>, m: string, i: nat, b: set<char>, r: string, j: nat)
    requires StrippedAt(s, a, m, i) && StrippedAt(m, b, r, j)
    ensures StrippedAt(s, a + b, r, i + j)
  {
    forall k | 0 <= k < |r| ensures r[k] == s[i + j + k] {
      assert r[k] == m[j + k];
    }
    assert r == s[i + j..i + j + |r|];
    forall k | 0 <= k < i + j ensures s[k] in a + b {
      if k >= i {
        assert s[k] == m[k - i];
      }
    }
    forall k | i + j + |r| <= k < |s| ensures s[k] in a + b {
      if k < i + |m| {
        assert s[k] == m[k - i];
      }
    }
  }

  // ---------------------------------------------------------------------
  // str.split()

  /** A non-empty run of non-whitespace characters: what `str.split()` yields. */
  predicate IsWord(w: string) {
    |w| > 0 && forall k :: 0 <= k < |w| ==> !IsSpace(w[k])
  }

  /** The longest prefix of `s` free of whitespace. */
  function LeadingWord(s: string): (r: string)
    ensures |r| <= |s| && r == s[..|r|]
    ensures forall k :: 0 <= k < |r| ==> !IsSpace(s[k])
    ensures |r| == |s| || IsSpace(s[|r|])
    decreases |s|
  {
    if s == [] || IsSpace(s[0]) then [] else [s[0]] + LeadingWord(s[1..])
  }

  /** `s.split()`: the maximal whitespace-free runs of `s`, left to right. */
  function Split(s: string): (r: seq<string>)
    ensures forall i :: 0 <= i < |r| ==> IsWord(r[i])
    decreases |s|
  {
    var t := StripLeft(s, Whitespace);
    if t == [] then
      []
    else
      var w := LeadingWord(t);
      assert IsWord(w) by {
        assert |w| > 0 by { assert !IsSpace(t[0]); }
        forall k | 0 <= k < |w| ensures !IsSpace(w[k]) { assert w[k] == t[k]; }
      }
      var rest := Split(t[|w|..]);
      var r := [w] + rest;
      assert forall i :: 0 < i < |r| ==> r[i] == rest[i - 1];
      r
  }

  /** Leading whitespace does not change the tokens. */
  lemma SplitSkipsSpace(c: char, s: string)
    requires IsSpace(c)
    ensures Split([c] + s) == Split(s)
  {
    assert ([c] + s)[1..] == s;
  }

  /** The leading word of a word followed by whitespace (or by nothing) is
      that word. */
  lemma {:induction false} LeadingWordOf(w: string, rest: string)
    requires forall k :: 0 <= k < |w| ==> !IsSpace(w[k])
    requires rest == [] || IsSpace(rest[0])
    ensures LeadingWord(w + rest) == w
    decreases |w|
  {
    if w != [] {
      assert (w + rest)[0] == w[0];
      assert (w + rest)[1..] == w[1..] + rest;
      LeadingWordOf(w[1..], rest);
    }
  }

  /** A word followed by whitespace (or by nothing) is the first token. */
  lemma SplitWordFirst(w: string, rest: string)
    requires IsWord(w)
    requires rest == [] || IsSpace(rest[0])
    ensures Split(w + rest) == [w] + Split(rest)
  {
    var s := w + rest;
    assert s[0] == w[0];
    assert StripLeft(s, Whitespace) == s;
    LeadingWordOf(w, rest);
    assert s[|w|..] == rest;
  }

  /** A word, a space and then anything: the word is the first token. */
  lemma SplitWordSpace(w: string, tail: string)
    requires IsWord(w)
    ensures Split(w + " " + tail) == [w] + Split(tail)
  {
    var sp := [' '] + tail;
    assert w + " " + tail == w + sp;
    SplitWordFirst(w, sp);
    SplitSkipsSpace(' ', tail);
  }

  /** A single word is its own only token. */
  lemma SplitWord(w: string)
    requires IsWord(w)
    ensures Split(w) == [w]
  {
    SplitWordFirst(w, "");
    assert w + "" == w;
  }

  /** Words joined by one space split back into the same words. */
  lemma {:induction false} SplitJoinWords(ws: seq<string>)
    requires forall i :: 0 <= i < |ws| ==> IsWord(ws[i])
    ensures Split(Join(ws, " ")) == ws
    decreases |ws|
  {
    if |ws| == 1 {
      SplitWordFirst(ws[0], "");
      assert ws[0] + "" == ws[0];
    } else if |ws| > 1 {
      var w, rest := ws[0], ws[1..];
      var joined := Join(rest, " ");
      SplitJoinWords(rest);
      assert Join(ws, " ") == w + " " + joined;
      SplitWordSpace(w, joined);
      assert [w] + rest == ws;
    }
  }

  // ---------------------------------------------------------------------
  // sep.join(parts)

  /** `sep.join(parts)`. */
  function Join(parts: seq<string>, sep: string): string
    decreases |parts|
  {
    if |parts| == 0 then ""
    else if |parts| == 1 then parts[0]
    else parts[0] + sep + Join(parts[1..], sep)
  }

  /** Sum of the lengths of `parts`. */
  function TotalLength(parts: seq<string>): nat
    decreases |parts|
  {
    if parts == [] then 0 else |parts[0]| + TotalLength(parts[1..])
  }

  /** Joining k parts inserts exactly k - 1 separators and nothing else. */
  lemma {:induction false} JoinLength(parts: seq<string>, sep: string)
    requires |parts| > 0
    ensures |Join(parts, sep)| == TotalLength(parts) + (|parts| - 1) * |sep|
    decreases |parts|
  {
    if |parts| > 1 {
      JoinLength(parts[1..], sep);
      assert (|parts| - 1) * |sep| == (|parts| - 2) * |sep| + |sep|;
    }
  }
}
