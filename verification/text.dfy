/**
 * The part of regular-expression matching the feature flags rely on: the
 * two kinds of alternative their patterns are built from, and the search
 * `str.contains` performs with them.  Case folding and word characters are
 * those of ASCII.
 */
module Text {
  /** ASCII lower-casing. */
  function Lower(c: char): char
  {
    if 'A' <= c <= 'Z' then (c as int + 32) as char else c
  }

  /** `str.lower`, character by character. */
  function LowerString(s: string): (r: string)
    ensures |r| == |s| && forall i :: 0 <= i < |s| ==> r[i] == Lower(s[i])
  {
    seq(|s|, i requires 0 <= i < |s| => Lower(s[i]))
  }

  /** A character `\w` matches: letter, digit or underscore. */
  predicate IsWordChar(c: char)
  {
    'a' <= c <= 'z' || 'A' <= c <= 'Z' || '0' <= c <= '9' || c == '_'
  }

  /** Pattern character `p` matches text character `c`; `.` matches anything but a newline. */
  predicate CharMatches(p: char, c: char, ignoreCase: bool)
  {
    if p == '.' then c != '\n' else if ignoreCase then Lower(p) == Lower(c) else p == c
  }

  /** The pattern characters match the text from position `i` on. */
  predicate LiteralAt(pattern: string, text: string, i: nat, ignoreCase: bool)
  {
    i + |pattern| <= |text| && forall j :: 0 <= j < |pattern| ==> CharMatches(pattern[j], text[i + j], ignoreCase)
  }

  /** `\b` at position `p`: a word character on exactly one side. */
  predicate Boundary(text: string, p: nat)
    requires p <= |text|
  {
    (p > 0 && IsWordChar(text[p - 1])) != (p < |text| && IsWordChar(text[p]))
  }

  /** One branch of an alternation. */
  datatype Alternative =
    | Starred(stem: string, repeated: char)  // `stem` followed by `repeated*`
    | Bounded(word: string)                  // `\b word \b`

  /**
   * The branch matches starting at position `i`.  A starred character may
   * repeat zero times, so a `Starred` branch matches wherever its stem does.
   */
  predicate MatchesAt(a: Alternative, text: string, i: nat, ignoreCase: bool)
  {
    match a
    case Starred(stem, _) => LiteralAt(stem, text, i, ignoreCase)
    case Bounded(word) =>
      i + |word| <= |text| && Boundary(text, i) && LiteralAt(word, text, i, ignoreCase) && Boundary(text, i + |word|)
  }

  function Repeat(c: char, n: nat): (s: string)
    ensures |s| == n && forall j :: 0 <= j < n ==> s[j] == c
  {
    seq(n, _ => c)
  }

  /** `stem` followed by `n` copies of the starred character matches at `i`. */
  ghost predicate StarredAt(stem: string, repeated: char, n: nat, text: string, i: nat, ignoreCase: bool)
  {
    LiteralAt(stem + Repeat(repeated, n), text, i, ignoreCase)
  }

  /** A starred branch matches for some number of repetitions exactly when its stem matches. */
  lemma StarMayRepeatNothing(stem: string, repeated: char, text: string, i: nat, ignoreCase: bool)
    ensures (exists n :: StarredAt(stem, repeated, n, text, i, ignoreCase)) <==> LiteralAt(stem, text, i, ignoreCase)
  {
    if LiteralAt(stem, text, i, ignoreCase) {
      assert stem + Repeat(repeated, 0) == stem;
      assert StarredAt(stem, repeated, 0, text, i, ignoreCase);
    }
    if exists n :: StarredAt(stem, repeated, n, text, i, ignoreCase) {
      var n :| StarredAt(stem, repeated, n, text, i, ignoreCase);
      var full := stem + Repeat(repeated, n);
      assert forall j :: 0 <= j < |stem| ==> full[j] == stem[j];
    }
  }

  /** Some branch matches at position `i`. */
  predicate AnyMatchesAt(regex: seq<Alternative>, text: string, i: nat, ignoreCase: bool)
  {
    exists a :: a in regex && MatchesAt(a, text, i, ignoreCase)
  }

  /**
   * `re.search` with an alternation: try every branch at each position from
   * `i` to the end of the text, left to right.
   */
  function SearchFrom(regex: seq<Alternative>, text: string, i: nat, ignoreCase: bool): bool
    decreases |text| + 1 - i
  {
    if i > |text| then false
    else AnyMatchesAt(regex, text, i, ignoreCase) || SearchFrom(regex, text, i + 1, ignoreCase)
  }

  function Search(regex: seq<Alternative>, text: string, ignoreCase: bool): bool
  {
    SearchFrom(regex, text, 0, ignoreCase)
  }

  /** The scan from `i` finds a match exactly when some branch matches at or after `i`. */
  lemma {:induction false} SearchFromFinds(regex: seq<Alternative>, text: string, i: nat, ignoreCase: bool)
    ensures SearchFrom(regex, text, i, ignoreCase) <==>
      exists a, p :: a in regex && i <= p <= |text| && MatchesAt(a, text, p, ignoreCase)
    decreases |text| + 1 - i
  {
    if i <= |text| {
      SearchFromFinds(regex, text, i + 1, ignoreCase);
      if exists a, p :: a in regex && i <= p <= |text| && MatchesAt(a, text, p, ignoreCase) {
        var a, p :| a in regex && i <= p <= |text| && MatchesAt(a, text, p, ignoreCase);
        if p == i {
          assert AnyMatchesAt(regex, text, i, ignoreCase);
        }
      }
    }
  }

  /** `re.search` succeeds exactly when some branch matches somewhere in the text. */
  lemma SearchFinds(regex: seq<Alternative>, text: string, ignoreCase: bool)
    ensures Search(regex, text, ignoreCase) <==>
      exists a, p :: a in regex && 0 <= p <= |text| && MatchesAt(a, text, p, ignoreCase)
  {
    SearchFromFinds(regex, text, 0, ignoreCase);
  }

  /** A word preceded by a word character is not matched there: `\b` rules out matches inside words. */
  lemma NoMatchInsideWord(word: string, text: string, i: nat, ignoreCase: bool)
    requires 0 < i <= |text| && 0 < |word| && IsWordChar(word[0]) && IsWordChar(text[i - 1])
    ensures !MatchesAt(Bounded(word), text, i, ignoreCase)
  {
  }
}
