/**
 * The regular expressions of the receipt parser are sequences of quantified
 * character classes (`\$?`, `\d+`, `\.`, `\d{2}`, `\d{1,2}`, `[\/\-]`,
 * `\d{2,4}`), with no alternation and no groups. For such patterns a JavaScript
 * regular expression match is: try each start position from the left; at a
 * start, let every atom first take as many characters as it may (greedy) and,
 * when the rest of the pattern then fails, give them back one at a time down
 * to its minimum (backtracking). `MatchAt` and `Backtrack` are that search,
 * `Search` is the leftmost start, and `Fits` is the declarative meaning of a
 * pattern, against which the search is proved sound and complete.
 */
module Regex {
  import opened Strings
  import opened Wrappers

  /** `\d`, one literal character, or the class `[\/\-]`. */
  datatype CharClass = Digit | Char(c: char) | DateSep

  /** The upper bound of a quantifier: `{m,n}` or `+`. */
  datatype Limit = Finite(n: nat) | Unbounded

  datatype Atom = Atom(cls: CharClass, min: nat, max: Limit)

  type Pattern = seq<Atom>

  predicate InClass(cls: CharClass, c: char) {
    match cls
    case Digit => IsDigit(c)
    case Char(d) => c == d
    case DateSep => c == '/' || c == '-'
  }

  predicate AllIn(cls: CharClass, t: string) {
    forall i :: 0 <= i < |t| ==> InClass(cls, t[i])
  }

  /** A count of `k` repetitions is within the upper bound. */
  predicate Allows(max: Limit, k: nat) {
    max.Unbounded? || k <= max.n
  }

  function Lower(max: Limit): Limit
    requires max != Finite(0)
  {
    match max
    case Unbounded => Unbounded
    case Finite(n) => Finite(n - 1)
  }

  /**
   * The greedy count: the most characters from `pos` on that are in `cls`,
   * at most `max` of them.
   */
  function Run(cls: CharClass, max: Limit, s: string, pos: nat): (k: nat)
    requires pos <= |s|
    ensures pos + k <= |s| && Allows(max, k)
    ensures AllIn(cls, s[pos..pos + k])
    ensures pos + k < |s| && Allows(max, k + 1) ==> !InClass(cls, s[pos + k])
    decreases |s| - pos
  {
    if pos == |s| || !InClass(cls, s[pos]) || max == Finite(0) then
      0
    else
      var k := 1 + Run(cls, Lower(max), s, pos + 1);
      assert s[pos..pos + k] == [s[pos]] + s[pos + 1..pos + k];
      k
  }

  /**
   * The end of the match the backtracking search finds when the pattern is
   * tried at `pos`, or `None` when it fails there.
   */
  function MatchAt(p: Pattern, s: string, pos: nat): (r: Option<nat>)
    requires pos <= |s|
    ensures r.Some? ==> pos <= r.value <= |s|
    decreases |p|, 1, 0
  {
    if p == [] then Some(pos)
    else Backtrack(p, s, pos, Run(p[0].cls, p[0].max, s, pos))
  }

  /**
   * The first atom of `p` has taken `k` characters at `pos`: try the rest of
   * the pattern after them, and on failure give one character back.
   */
  function Backtrack(p: Pattern, s: string, pos: nat, k: nat): (r: Option<nat>)
    requires p != [] && pos + k <= |s|
    ensures r.Some? ==> pos <= r.value <= |s|
    decreases |p|, 0, k
  {
    if k < p[0].min then None
    else
      match MatchAt(p[1..], s, pos + k)
      case Some(e) => Some(e)
      case None => if k == 0 then None else Backtrack(p, s, pos, k - 1)
  }

  /** `t` is a word of the language of `p`. */
  ghost predicate Fits(p: Pattern, t: string)
    decreases |p|
  {
    if p == [] then t == []
    else exists k :: p[0].min <= k <= |t| && Allows(p[0].max, k) && AllIn(p[0].cls, t[..k]) && Fits(p[1..], t[k..])
  }

  /** Unfolds `Fits` once: how many characters the first atom takes. */
  lemma FitsCons(a: Atom, rest: Pattern, t: string) returns (k: nat)
    requires Fits([a] + rest, t)
    ensures a.min <= k <= |t| && Allows(a.max, k) && AllIn(a.cls, t[..k]) && Fits(rest, t[k..])
  {
    assert ([a] + rest)[1..] == rest;
    k :| a.min <= k <= |t| && Allows(a.max, k) && AllIn(a.cls, t[..k]) && Fits(rest, t[k..]);
  }

  /** What the search finds at `pos` is a word of the pattern's language. */
  lemma {:induction false} MatchAtSound(p: Pattern, s: string, pos: nat)
    requires pos <= |s| && MatchAt(p, s, pos).Some?
    ensures Fits(p, s[pos..MatchAt(p, s, pos).value])
    decreases |p|, 1, 0
  {
    if p != [] {
      BacktrackSound(p, s, pos, Run(p[0].cls, p[0].max, s, pos));
    }
  }

  lemma {:induction false} BacktrackSound(p: Pattern, s: string, pos: nat, k: nat)
    requires p != [] && pos + k <= |s| && Backtrack(p, s, pos, k).Some?
    requires AllIn(p[0].cls, s[pos..pos + k]) && Allows(p[0].max, k)
    ensures Fits(p, s[pos..Backtrack(p, s, pos, k).value])
    decreases |p|, 0, k
  {
    var e := Backtrack(p, s, pos, k).value;
    if MatchAt(p[1..], s, pos + k).Some? {
      MatchAtSound(p[1..], s, pos + k);
      FitsJoin(p, s, pos, k, e);
    } else {
      assert s[pos..pos + (k - 1)] == s[pos..pos + k][..k - 1];
      BacktrackSound(p, s, pos, k - 1);
    }
  }

  /** `Fits` folded once: the first atom's characters followed by a word of the rest. */
  lemma FitsJoin(p: Pattern, s: string, pos: nat, k: nat, e: nat)
    requires p != [] && pos + k <= e <= |s| && p[0].min <= k && Allows(p[0].max, k)
    requires AllIn(p[0].cls, s[pos..pos + k]) && Fits(p[1..], s[pos + k..e])
    ensures Fits(p, s[pos..e])
  {
    var t := s[pos..e];
    assert t[..k] == s[pos..pos + k];
    assert t[k..] == s[pos + k..e];
  }

  /** The greedy count is at least any count of class characters the bound allows. */
  lemma {:induction false} RunCovers(cls: CharClass, max: Limit, s: string, pos: nat, k: nat)
    requires pos + k <= |s| && Allows(max, k) && AllIn(cls, s[pos..pos + k])
    ensures k <= Run(cls, max, s, pos)
    decreases k
  {
    if k > 0 {
      assert InClass(cls, s[pos..pos + k][0]);
      assert s[pos + 1..pos + 1 + (k - 1)] == s[pos..pos + k][1..];
      RunCovers(cls, Lower(max), s, pos + 1, k - 1);
    }
  }

  /** Giving characters back one by one reaches every count the rest can follow. */
  lemma {:induction false} BacktrackReaches(p: Pattern, s: string, pos: nat, big: nat, k: nat)
    requires p != [] && pos + big <= |s| && p[0].min <= k <= big
    requires MatchAt(p[1..], s, pos + k).Some?
    ensures Backtrack(p, s, pos, big).Some?
    decreases big
  {
    if big > k && MatchAt(p[1..], s, pos + big).None? {
      BacktrackReaches(p, s, pos, big - 1, k);
    }
  }

  /** `Fits` unfolded once on a piece `s[pos..e]` of a longer text. */
  lemma FitsAt(p: Pattern, s: string, pos: nat, e: nat) returns (k: nat)
    requires p != [] && pos <= e <= |s| && Fits(p, s[pos..e])
    ensures p[0].min <= k && pos + k <= e && Allows(p[0].max, k)
    ensures AllIn(p[0].cls, s[pos..pos + k]) && Fits(p[1..], s[pos + k..e])
  {
    var t := s[pos..e];
    assert p == [p[0]] + p[1..];
    k := FitsCons(p[0], p[1..], t);
    assert t[k..] == s[pos + k..e];
    assert t[..k] == s[pos..pos + k];
  }

  /** Whenever some word of the language starts at `pos`, the search succeeds there. */
  lemma {:induction false} MatchAtComplete(p: Pattern, s: string, pos: nat, e: nat)
    requires pos <= e <= |s| && Fits(p, s[pos..e])
    ensures MatchAt(p, s, pos).Some?
    decreases |p|
  {
    if p != [] {
      var k := FitsAt(p, s, pos, e);
      MatchAtComplete(p[1..], s, pos + k, e);
      RunCovers(p[0].cls, p[0].max, s, pos, k);
      BacktrackReaches(p, s, pos, Run(p[0].cls, p[0].max, s, pos), k);
    }
  }

  /** No character belongs to both classes (see `DisjointSound`). */
  predicate Disjoint(a: CharClass, b: CharClass) {
    match a
    case Digit => !b.Digit? && (b.Char? ==> !IsDigit(b.c))
    case Char(c) => !InClass(b, c)
    case DateSep => !b.DateSep? && (b.Char? ==> b.c != '/' && b.c != '-')
  }

  lemma DisjointSound(a: CharClass, b: CharClass, c: char)
    requires Disjoint(a, b)
    ensures !(InClass(a, c) && InClass(b, c))
  {
  }

  /**
   * Every atom after the first takes at least one character, and none shares a
   * character with the atom before it. For such a pattern the first atom of a
   * word cannot give a character to the next one, so the greedy count is the
   * only one a word can use (see `MatchAtLongest`).
   */
  predicate Separated(p: Pattern) {
    forall i :: 1 <= i < |p| ==> p[i].min >= 1 && Disjoint(p[i - 1].cls, p[i].cls)
  }

  lemma SeparatedTail(p: Pattern)
    requires p != [] && Separated(p)
    ensures Separated(p[1..])
  {
    forall i | 1 <= i < |p[1..]|
      ensures p[1..][i].min >= 1 && Disjoint(p[1..][i - 1].cls, p[1..][i].cls)
    {
      assert p[1..][i] == p[i + 1] && p[1..][i - 1] == p[i];
    }
  }

  /** A word of a pattern whose first atom takes a character starts with a character of its class. */
  lemma FitsStart(p: Pattern, s: string, pos: nat, e: nat)
    requires p != [] && p[0].min >= 1 && pos <= e <= |s| && Fits(p, s[pos..e])
    ensures pos < e && InClass(p[0].cls, s[pos])
  {
    var k := FitsAt(p, s, pos, e);
    assert s[pos..pos + k][0] == s[pos];
  }

  /** When the rest of the pattern matches after the greedy count, no backtracking happens. */
  lemma GreedyFirst(p: Pattern, s: string, pos: nat)
    requires p != [] && pos <= |s|
    requires p[0].min <= Run(p[0].cls, p[0].max, s, pos)
    requires MatchAt(p[1..], s, pos + Run(p[0].cls, p[0].max, s, pos)).Some?
    ensures MatchAt(p, s, pos) == MatchAt(p[1..], s, pos + Run(p[0].cls, p[0].max, s, pos))
  {
  }

  /**
   * In a word of a separated pattern the first atom takes exactly the greedy
   * count: the character after its part belongs to the next atom's class, so
   * it is not in its own.
   */
  lemma GreedyCount(p: Pattern, s: string, pos: nat, k: nat, f: nat)
    requires |p| >= 2 && Separated(p) && pos + k <= f <= |s|
    requires Allows(p[0].max, k) && AllIn(p[0].cls, s[pos..pos + k]) && Fits(p[1..], s[pos + k..f])
    ensures k == Run(p[0].cls, p[0].max, s, pos)
  {
    var run := Run(p[0].cls, p[0].max, s, pos);
    RunCovers(p[0].cls, p[0].max, s, pos, k);
    FitsStart(p[1..], s, pos + k, f);
    DisjointSound(p[0].cls, p[1].cls, s[pos + k]);
    forall j | pos <= j < pos + run ensures InClass(p[0].cls, s[j]) {
      assert s[pos..pos + run][j - pos] == s[j];
    }
  }

  /** The empty pattern's only word is the empty string. */
  lemma FitsNil(p: Pattern, t: string)
    requires p == [] && Fits(p, t)
    ensures t == []
  {
  }

  /** The empty pattern matches at once, taking nothing. */
  lemma MatchAtNil(p: Pattern, s: string, pos: nat)
    requires p == [] && pos <= |s|
    ensures MatchAt(p, s, pos) == Some(pos)
  {
  }

  /** A single atom matches greedily, so it takes every word of its own language. */
  lemma LongestSingle(p: Pattern, s: string, pos: nat, f: nat)
    requires |p| == 1 && pos <= f <= |s| && Fits(p, s[pos..f])
    ensures MatchAt(p, s, pos).Some? && f <= MatchAt(p, s, pos).value
  {
    var k := FitsAt(p, s, pos, f);
    FitsNil(p[1..], s[pos + k..f]);
    var run := Run(p[0].cls, p[0].max, s, pos);
    RunCovers(p[0].cls, p[0].max, s, pos, k);
    MatchAtNil(p[1..], s, pos + run);
    GreedyFirst(p, s, pos);
  }


  /** The step of `MatchAtLongest`: the longest match of the rest after the greedy count is the longest match. */
  lemma LongestStep(p: Pattern, s: string, pos: nat, k: nat, f: nat)
    requires |p| >= 2 && Separated(p) && pos + k <= f <= |s| && p[0].min <= k
    requires Allows(p[0].max, k) && AllIn(p[0].cls, s[pos..pos + k]) && Fits(p[1..], s[pos + k..f])
    requires MatchAt(p[1..], s, pos + k).Some? && f <= MatchAt(p[1..], s, pos + k).value
    ensures MatchAt(p, s, pos).Some? && f <= MatchAt(p, s, pos).value
  {
    GreedyCount(p, s, pos, k, f);
    GreedyFirst(p, s, pos);
  }

  /**
   * For a separated pattern the search at `pos` finds the longest word of the
   * language starting there: it succeeds, and every word starting at `pos`
   * ends at or before the end it reports.
   */
  lemma {:induction false} MatchAtLongest(p: Pattern, s: string, pos: nat, f: nat)
    requires Separated(p) && pos <= f <= |s| && Fits(p, s[pos..f])
    ensures MatchAt(p, s, pos).Some? && f <= MatchAt(p, s, pos).value
    decreases |p|
  {
    if p != [] {
      if |p| == 1 {
        LongestSingle(p, s, pos, f);
      } else {
        var k := FitsAt(p, s, pos, f);
        SeparatedTail(p);
        MatchAtLongest(p[1..], s, pos + k, f);
        LongestStep(p, s, pos, k, f);
      }
    }
  }

  /**
   * `s.match(re)` for a non-global `re`, from position `from` on: the first
   * start at which the search succeeds, with the end of its match.
   */
  function Search(p: Pattern, s: string, from: nat): (r: Option<(nat, nat)>)
    ensures r.Some? ==> from <= r.value.0 <= r.value.1 <= |s| && MatchAt(p, s, r.value.0) == Some(r.value.1)
    ensures r.Some? ==> forall j :: from <= j < r.value.0 ==> MatchAt(p, s, j).None?
    ensures r.None? ==> forall j :: from <= j <= |s| ==> MatchAt(p, s, j).None?
    decreases |s| + 1 - from
  {
    if from > |s| then None
    else
      match MatchAt(p, s, from)
      case Some(e) => Some((from, e))
      case None => Search(p, s, from + 1)
  }

  /** The matched text of `s.match(re)[0]`, if there is a match. */
  function FirstMatch(p: Pattern, s: string): Option<string> {
    match Search(p, s, 0)
    case Some((b, e)) => Some(s[b..e])
    case None => None
  }

  /**
   * The match is the leftmost word of the language in `s`: it fits the
   * pattern, and no word of the language starts further left. Without a
   * match, no piece of `s` fits the pattern.
   */
  lemma Leftmost(p: Pattern, s: string)
    ensures Search(p, s, 0).Some? ==>
              var (b, e) := Search(p, s, 0).value;
              && Fits(p, s[b..e])
              && forall j, f :: 0 <= j < b && j <= f <= |s| ==> !Fits(p, s[j..f])
    ensures Search(p, s, 0).None? ==> forall j, f :: 0 <= j <= f <= |s| ==> !Fits(p, s[j..f])
  {
    match Search(p, s, 0)
    case Some((b, e)) =>
      MatchAtSound(p, s, b);
      forall j, f | 0 <= j < b && j <= f <= |s| ensures !Fits(p, s[j..f]) {
        if Fits(p, s[j..f]) {
          MatchAtComplete(p, s, j, f);
        }
      }
    case None =>
      forall j, f | 0 <= j <= f <= |s| ensures !Fits(p, s[j..f]) {
        if Fits(p, s[j..f]) {
          MatchAtComplete(p, s, j, f);
        }
      }
  }

  /**
   * For a separated pattern the match is also the longest word of the
   * language at its start, so the leftmost start and this end pin it down.
   */
  lemma Longest(p: Pattern, s: string)
    requires Separated(p)
    ensures Search(p, s, 0).Some? ==>
              var (b, e) := Search(p, s, 0).value;
              forall f :: b <= f <= |s| && Fits(p, s[b..f]) ==> f <= e
  {
    if Search(p, s, 0).Some? {
      var (b, e) := Search(p, s, 0).value;
      forall f | b <= f <= |s| && Fits(p, s[b..f]) ensures f <= e {
        MatchAtLongest(p, s, b, f);
      }
    }
  }

  /** `FirstMatch` is a match exactly when some piece of `s` fits the pattern. */
  lemma FirstMatchExists(p: Pattern, s: string)
    ensures FirstMatch(p, s).Some? <==> exists j, f :: 0 <= j <= f <= |s| && Fits(p, s[j..f])
    ensures FirstMatch(p, s).Some? ==> Fits(p, FirstMatch(p, s).value)
  {
    Leftmost(p, s);
  }
}
