/**
 * The JavaScript string operations the receipt parser and the charts rely on,
 * over strings as sequences of characters: `trim`, `split` on a character set,
 * `replace` of the first occurrence of a character, `padStart`, `startsWith`,
 * and the lexicographic order on strings.
 */
module Strings {

  /** `\d` of a JavaScript regular expression: the ten ASCII digits only. */
  predicate IsDigit(c: char) {
    '0' <= c <= '9'
  }

  predicate AllDigits(s: string) {
    forall i :: 0 <= i < |s| ==> IsDigit(s[i])
  }

  /**
   * The characters `String.prototype.trim` removes: ECMAScript WhiteSpace
   * (tab, vertical tab, form feed, space, no-break space, byte order mark and
   * the other Unicode "Zs" space separators) and LineTerminator.
   */
  predicate IsWhitespace(c: char) {
    || c == '\t' || c == '\U{B}' || c == '\U{C}' || c == ' ' || c == '\U{A0}' || c == '\U{FEFF}'
    || c == '\n' || c == '\r' || c == '\U{2028}' || c == '\U{2029}'
    || c == '\U{1680}' || ('\U{2000}' <= c <= '\U{200A}') || c == '\U{202F}' || c == '\U{205F}'
    || c == '\U{3000}'
  }

  predicate AllWhitespace(s: string) {
    forall i :: 0 <= i < |s| ==> IsWhitespace(s[i])
  }

  /** The index of the first character at or after `i` that is not whitespace, or `|s|`. */
  function SkipLeading(s: string, i: nat): (j: nat)
    requires i <= |s|
    ensures i <= j <= |s|
    ensures forall k :: i <= k < j ==> IsWhitespace(s[k])
    ensures j < |s| ==> !IsWhitespace(s[j])
    decreases |s| - i
  {
    if i < |s| && IsWhitespace(s[i]) then SkipLeading(s, i + 1) else i
  }

  /** The end of `s[lo..j]` once its trailing whitespace is dropped. */
  function SkipTrailing(s: string, lo: nat, j: nat): (e: nat)
    requires lo <= j <= |s|
    ensures lo <= e <= j
    ensures forall k :: e <= k < j ==> IsWhitespace(s[k])
    ensures e > lo ==> !IsWhitespace(s[e - 1])
  {
    if j > lo && IsWhitespace(s[j - 1]) then SkipTrailing(s, lo, j - 1) else j
  }

  /**
   * `String.prototype.trim`: the piece of `s` between its leading and its
   * trailing whitespace. Only whitespace is cut off; the result is empty
   * exactly when `s` is all whitespace, and otherwise neither starts nor ends
   * with whitespace.
   */
  function Trim(s: string): (r: string)
    ensures exists i, j :: 0 <= i <= j <= |s| && r == s[i..j] && AllWhitespace(s[..i]) && AllWhitespace(s[j..])
    ensures r == [] <==> AllWhitespace(s)
    ensures r != [] ==> !IsWhitespace(r[0]) && !IsWhitespace(r[|r| - 1])
  {
    var b := SkipLeading(s, 0);
    var e := SkipTrailing(s, b, |s|);
    assert AllWhitespace(s[..b]) by {
      forall k | 0 <= k < b ensures IsWhitespace(s[..b][k]) {
        assert s[..b][k] == s[k];
      }
    }
    assert AllWhitespace(s[e..]) by {
      forall k | 0 <= k < |s| - e ensures IsWhitespace(s[e..][k]) {
        assert s[e..][k] == s[e + k];
      }
    }
    s[b..e]
  }

  /** Trimming brings in no character that was not there. */
  lemma TrimKeepsOut(s: string, c: char)
    requires c !in s
    ensures c !in Trim(s)
  {
    var r := Trim(s);
    var i, j :| 0 <= i <= j <= |s| && r == s[i..j];
    forall k | 0 <= k < |r|
      ensures r[k] != c
    {
      assert r[k] == s[i + k];
    }
  }

  /** How many characters of `s` belong to `cs`. */
  function CountIn(s: string, cs: set<char>): nat {
    if s == [] then 0 else (if s[0] in cs then 1 else 0) + CountIn(s[1..], cs)
  }

  /**
   * `s.split(sep)` where `sep` is a single character or a one-character class
   * `[..]` given as the set `seps`: the pieces between separators, in order,
   * including empty ones. There is one more piece than there are separators.
   */
  function SplitOn(s: string, seps: set<char>): (r: seq<string>)
    ensures |r| == 1 + CountIn(s, seps)
    ensures forall i, j :: 0 <= i < |r| && 0 <= j < |r[i]| ==> r[i][j] !in seps
  {
    if s == [] then
      [[]]
    else
      var rest := SplitOn(s[1..], seps);
      if s[0] in seps then
        [[]] + rest
      else
        var r := [[s[0]] + rest[0]] + rest[1..];
        assert forall i :: 1 <= i < |r| ==> r[i] == rest[i];
        r
  }

  /** `parts.join(c)`. */
  function JoinWith(parts: seq<string>, c: char): string
    requires |parts| >= 1
  {
    if |parts| == 1 then parts[0] else parts[0] + [c] + JoinWith(parts[1..], c)
  }

  /** Splitting on one character and joining with it gives the string back. */
  lemma {:induction false} JoinSplit(s: string, c: char)
    ensures JoinWith(SplitOn(s, {c}), c) == s
  {
    if s != [] {
      var rest := SplitOn(s[1..], {c});
      JoinSplit(s[1..], c);
      if s[0] != c {
        var r := SplitOn(s, {c});
        assert r[0] == [s[0]] + rest[0] && r[1..] == rest[1..];
        if |rest| > 1 {
          assert JoinWith(rest, c) == rest[0] + [c] + JoinWith(rest[1..], c);
        }
      }
    }
  }

  /** A string without separators splits into itself alone. */
  lemma {:induction false} SplitNone(s: string, seps: set<char>)
    requires forall i :: 0 <= i < |s| ==> s[i] !in seps
    ensures SplitOn(s, seps) == [s]
  {
    if s != [] {
      SplitNone(s[1..], seps);
      assert s == [s[0]] + s[1..];
    }
  }

  /** A separator cuts the text into what is split before it and after it. */
  lemma {:induction false} SplitAround(a: string, c: char, b: string, seps: set<char>)
    requires c in seps
    ensures SplitOn(a + [c] + b, seps) == SplitOn(a, seps) + SplitOn(b, seps)
  {
    if a == [] {
      assert a + [c] + b == [c] + b;
      assert ([c] + b)[1..] == b;
    } else {
      assert (a + [c] + b)[1..] == a[1..] + [c] + b;
      SplitAround(a[1..], c, b, seps);
    }
  }

  /** Joining separator-free parts and splitting again gives the parts back. */
  lemma {:induction false} SplitJoin(parts: seq<string>, c: char)
    requires |parts| >= 1
    requires forall k :: 0 <= k < |parts| ==> c !in parts[k]
    ensures SplitOn(JoinWith(parts, c), {c}) == parts
  {
    SplitNone(parts[0], {c});
    if |parts| > 1 {
      SplitJoin(parts[1..], c);
      SplitAround(parts[0], c, JoinWith(parts[1..], c), {c});
      assert parts == [parts[0]] + parts[1..];
    }
  }

  /**
   * `s.replace(c, "")` with a one-character search string: the first
   * occurrence of `c`, if any, is removed and nothing else changes.
   */
  function ReplaceFirst(s: string, c: char): string {
    if s == [] then s
    else if s[0] == c then s[1..]
    else [s[0]] + ReplaceFirst(s[1..], c)
  }

  /**
   * The index of the first occurrence of `x` in `xs`, or `|xs|` when there is
   * none: what `indexOf` computes on a string and `find` locates in a list.
   */
  function Position<T(==)>(xs: seq<T>, x: T): (i: nat)
    ensures i <= |xs|
    ensures i < |xs| <==> x in xs
    ensures i < |xs| ==> xs[i] == x
    ensures forall j :: 0 <= j < i ==> xs[j] != x
  {
    if xs == [] then 0
    else if xs[0] == x then 0
    else 1 + Position(xs[1..], x)
  }

  /** With the first `c` at `i`, `ReplaceFirst` cuts out exactly that character. */
  lemma {:induction false} ReplaceFirstAt(s: string, c: char, i: nat)
    requires i < |s| && s[i] == c && c !in s[..i]
    ensures ReplaceFirst(s, c) == s[..i] + s[i + 1..]
  {
    if i > 0 {
      assert s[0] in s[..i];
      assert s[1..][..i - 1] == s[1..i];
      ReplaceFirstAt(s[1..], c, i - 1);
      assert s[..i] == [s[0]] + s[1..i];
      assert s[1..][i..] == s[i + 1..];
    }
  }

  /** Without a `c`, `ReplaceFirst` changes nothing. */
  lemma {:induction false} ReplaceFirstAbsent(s: string, c: char)
    requires c !in s
    ensures ReplaceFirst(s, c) == s
  {
    if s != [] {
      ReplaceFirstAbsent(s[1..], c);
      assert s == [s[0]] + s[1..];
    }
  }

  /** `ReplaceFirst` removes exactly the first `c` when there is one, and is the identity otherwise. */
  lemma ReplaceFirstRemovesFirst(s: string, c: char)
    ensures var i := Position(s, c);
            ReplaceFirst(s, c) == if i < |s| then s[..i] + s[i + 1..] else s
  {
    var i := Position(s, c);
    if i < |s| {
      assert forall k :: 0 <= k < i ==> s[..i][k] == s[k];
      ReplaceFirstAt(s, c, i);
    } else {
      ReplaceFirstAbsent(s, c);
    }
  }

  /** `n` copies of `c`. */
  function Repeat(c: char, n: nat): (r: string)
    ensures |r| == n && forall i :: 0 <= i < n ==> r[i] == c
  {
    if n == 0 then [] else [c] + Repeat(c, n - 1)
  }

  /**
   * `s.padStart(n, c)` with a one-character pad: `s` itself when it already has
   * `n` characters or more, otherwise `s` preceded by enough copies of `c` to
   * make it exactly `n` long.
   */
  function PadStart(s: string, n: nat, c: char): (r: string)
    ensures |s| >= n ==> r == s
    ensures |s| < n ==> |r| == n && r[n - |s|..] == s && r[..n - |s|] == Repeat(c, n - |s|)
  {
    if |s| >= n then s else Repeat(c, n - |s|) + s
  }

  /** `s.startsWith(prefix)`. */
  predicate StartsWith(s: string, prefix: string) {
    |prefix| <= |s| && s[..|prefix|] == prefix
  }

  /** Strict lexicographic order on strings, by character code. */
  predicate LexLess(a: string, b: string) {
    if a == [] then b != []
    else b != [] && (a[0] < b[0] || (a[0] == b[0] && LexLess(a[1..], b[1..])))
  }

  lemma {:induction false} LexLessIrreflexive(a: string)
    ensures !LexLess(a, a)
  {
    if a != [] {
      LexLessIrreflexive(a[1..]);
    }
  }

  lemma {:induction false} LexLessTransitive(a: string, b: string, c: string)
    requires LexLess(a, b) && LexLess(b, c)
    ensures LexLess(a, c)
  {
    if a != [] && a[0] == b[0] && b[0] == c[0] {
      LexLessTransitive(a[1..], b[1..], c[1..]);
    }
  }

  /** Any two different strings are ordered one way or the other. */
  lemma {:induction false} LexLessTotal(a: string, b: string)
    requires a != b
    ensures LexLess(a, b) || LexLess(b, a)
  {
    if a != [] && b != [] && a[0] == b[0] {
      assert a == [a[0]] + a[1..] && b == [b[0]] + b[1..];
      LexLessTotal(a[1..], b[1..]);
    }
  }
}
