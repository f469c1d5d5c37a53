/** The handful of java.util.regex patterns the agency tools compile, and the
    `Matcher.find` / `Matcher.replaceAll` behaviour the tools rely on.

    Each pattern shape is matched by hand, following the backtracking order of
    the Java engine: in `(^|\W)(w1|w2)(\W|$)` the `^` branch is tried before
    `\W`, the words in the order written, and the trailing `\W` before `$`.
    `^` and `$` are the non-multiline anchors; case-insensitive matching folds
    US-ASCII letters only. */
module Regex {
  import opened Wrappers
  import opened JavaText

  /** A non-empty pattern literal. */
  type Word = w: string | |w| > 0 witness "a"

  datatype Pattern =
      /** `((^|\W){1}(w1|w2|...)(\W|$){1})`, case-insensitive. */
    | Bounded(words: seq<Word>)
      /** A literal, case-insensitive (`( and )`). */
    | Literal(text: Word)
      /** `[\s]*c[\s]*`, case-sensitive (`c` is a parenthesis). */
    | Padded(c: char)
      /** `(^[\d]+[\S]*)`. */
    | LeadingNumber
      /** `(^.* \- )`. */
    | UpToLastDash
      /** `((\W){1}(word)($){1})`, case-insensitive. */
    | Trailing(word: Word)
      /** `^(a1|a2|...)suffix`, case-insensitive. */
    | Leading(alternatives: seq<Word>, suffix: string)

  /** A match that starts at a known position: `innerStart..innerEnd` is the
      matched word (group 3 of a `Bounded` pattern), `end` is the end of the whole
      match. */
  datatype Hit = Hit(innerStart: nat, innerEnd: nat, end: nat)

  /** The replacement strings the tools pass to `replaceAll`. */
  datatype Replacement =
    | Delete
    | Constant(text: string)
      /** `"$2" + middle + "$4"`: the bounding characters are kept around `middle`. */
    | KeepBounds(middle: string)

  /** `h` is a well-formed match of `s` that starts at `start`. */
  predicate HitIn(s: string, start: nat, h: Hit) {
    start <= h.innerStart <= h.innerEnd <= h.end <= |s| && start < h.end
  }

  // ---------------------------------------------------------------------
  // Building blocks

  /** The end of `(\W|$)` tried at `t`: one non-word character if there is one,
      otherwise the empty match at the end of input. Before a word character
      neither branch matches. */
  function TrailEnd(s: string, t: nat): (r: Option<nat>)
    requires t <= |s|
    ensures r.Some? ==> t <= r.value <= |s|
    ensures r.Some? <==> t == |s| || !IsWordChar(s[t])
  {
    if t < |s| && !IsWordChar(s[t]) then Some(t + 1)
    else if t == |s| then Some(t)
    else None
  }

  /** `(w1|w2|...)(\W|$)` tried at `q`: the end of the first word (in order) that
      matches there and is followed by a boundary, paired with the end of that
      boundary. */
  function WordAt(s: string, q: nat, words: seq<Word>): (r: Option<(nat, nat)>)
    requires q <= |s|
    ensures r.Some? ==> q < r.value.0 <= r.value.1 <= |s|
    ensures r.Some? ==> exists k | 0 <= k < |words| :: r.value.0 == q + |words[k]| && CiEq(s[q..r.value.0], words[k])
    ensures r.Some? ==> TrailEnd(s, r.value.0) == Some(r.value.1)
    ensures r.None? ==> forall k | 0 <= k < |words| && q + |words[k]| <= |s| ::
      !(CiEq(s[q..q + |words[k]|], words[k]) && TrailEnd(s, q + |words[k]|).Some?)
    decreases |words|
  {
    if words == [] then None
    else
      var e := q + |words[0]|;
      if e <= |s| && CiEq(s[q..e], words[0]) && TrailEnd(s, e).Some? then
        Some((e, TrailEnd(s, e).value))
      else
        var r := WordAt(s, q, words[1..]);
        assert forall k | 1 <= k < |words| :: words[k] == words[1..][k - 1];
        r
  }

  /** The end of the run of `\s` characters that starts at `i`. */
  function SkipSpaces(s: string, i: nat): (j: nat)
    requires i <= |s|
    ensures i <= j <= |s|
    ensures forall k | i <= k < j :: IsSpace(s[k])
    ensures j < |s| ==> !IsSpace(s[j])
    decreases |s| - i
  {
    if i < |s| && IsSpace(s[i]) then SkipSpaces(s, i + 1) else i
  }

  /** The end of the run of `\S` characters that starts at `i`. */
  function SkipNonSpaces(s: string, i: nat): (j: nat)
    requires i <= |s|
    ensures i <= j <= |s|
    ensures forall k | i <= k < j :: !IsSpace(s[k])
    ensures j < |s| ==> IsSpace(s[j])
    decreases |s| - i
  {
    if i < |s| && !IsSpace(s[i]) then SkipNonSpaces(s, i + 1) else i
  }

  /** The end of the first line that starts at `i`: how far `.*` can reach. */
  function LineEnd(s: string, i: nat): (j: nat)
    requires i <= |s|
    ensures i <= j <= |s|
    ensures forall k | i <= k < j :: !IsLineTerminator(s[k])
    ensures j < |s| ==> IsLineTerminator(s[j])
    decreases |s| - i
  {
    if i < |s| && !IsLineTerminator(s[i]) then LineEnd(s, i + 1) else i
  }

  /** `s[j..j+3]` is the three characters " - ". */
  predicate DashAt(s: string, j: int) {
    0 <= j && j + 3 <= |s| && s[j] == ' ' && s[j + 1] == '-' && s[j + 2] == ' '
  }

  /** The last position `j < n` with `" - "` at `j` and ending by `limit`. */
  function LastDash(s: string, limit: nat, n: nat): (r: Option<nat>)
    ensures r.Some? ==> r.value < n && r.value + 3 <= limit && DashAt(s, r.value)
    ensures r.Some? ==> forall j | r.value < j < n && j + 3 <= limit :: !DashAt(s, j)
    ensures r.None? ==> forall j | 0 <= j < n && j + 3 <= limit :: !DashAt(s, j)
    decreases n
  {
    if n == 0 then None
    else if n - 1 + 3 <= limit && DashAt(s, n - 1) then Some(n - 1)
    else LastDash(s, limit, n - 1)
  }

  /** `(a1|a2|...)suffix` at the start of `s`: the end of the match built on the
      first alternative (in order) that is followed by `suffix`. */
  function LeadingEnd(s: string, alternatives: seq<Word>, suffix: string): (r: Option<nat>)
    ensures r.Some? ==> 0 < r.value <= |s|
    ensures r.Some? ==> exists k | 0 <= k < |alternatives| ::
      r.value == |alternatives[k]| + |suffix| && CiEq(s[..r.value], alternatives[k] + suffix)
    ensures r.None? ==> forall k | 0 <= k < |alternatives| && |alternatives[k]| + |suffix| <= |s| ::
      !CiEq(s[..|alternatives[k]| + |suffix|], alternatives[k] + suffix)
    decreases |alternatives|
  {
    if alternatives == [] then None
    else
      var e := |alternatives[0]| + |suffix|;
      if e <= |s| && CiEq(s[..e], alternatives[0] + suffix) then Some(e)
      else
        var r := LeadingEnd(s, alternatives[1..], suffix);
        assert forall k | 1 <= k < |alternatives| :: alternatives[k] == alternatives[1..][k - 1];
        r
  }

  /** The first alternative, in order, that matches decides the end of a
      `Leading` match. */
  lemma {:induction false} LeadingEndFirstHit(s: string, alternatives: seq<Word>, suffix: string, k: nat)
    requires k < |alternatives| && |alternatives[k]| + |suffix| <= |s|
    requires CiEq(s[..|alternatives[k]| + |suffix|], alternatives[k] + suffix)
    requires forall j | 0 <= j < k && |alternatives[j]| + |suffix| <= |s| ::
      !CiEq(s[..|alternatives[j]| + |suffix|], alternatives[j] + suffix)
    ensures LeadingEnd(s, alternatives, suffix) == Some(|alternatives[k]| + |suffix|)
    decreases k
  {
    if k > 0 {
      var rest := alternatives[1..];
      assert rest[k - 1] == alternatives[k];
      forall j | 0 <= j < k - 1 && |rest[j]| + |suffix| <= |s|
        ensures !CiEq(s[..|rest[j]| + |suffix|], rest[j] + suffix)
      {
        assert rest[j] == alternatives[j + 1];
      }
      LeadingEndFirstHit(s, rest, suffix, k - 1);
    }
  }

  /** The non-multiline `$` at `i`: the end of input, or before a line
      terminator that ends the input (but not between '\r' and '\n'), or before
      a final "\r\n". */
  predicate DollarAt(s: string, i: nat) {
    i == |s|
    || (i + 1 == |s| && IsLineTerminator(s[i]) && !(s[i] == '\n' && i > 0 && s[i - 1] == '\r'))
    || (i + 2 == |s| && s[i] == '\r' && s[i + 1] == '\n')
  }

  // ---------------------------------------------------------------------
  // Matching

  /** The match of `p` that starts exactly at `start`, as the Java engine
      would find it there, if any. */
  function MatchAt(p: Pattern, s: string, start: nat): (r: Option<Hit>)
    requires start <= |s|
    ensures r.Some? ==> HitIn(s, start, r.value)
  {
    match p
    case Bounded(words) =>
      var atBegin := if start == 0 then WordAt(s, 0, words) else None;
      if atBegin.Some? then
        Some(Hit(0, atBegin.value.0, atBegin.value.1))
      else if start < |s| && !IsWordChar(s[start]) then
        match WordAt(s, start + 1, words)
        case Some(e) => Some(Hit(start + 1, e.0, e.1))
        case None => None
      else None
    case Literal(text) =>
      var e := start + |text|;
      if e <= |s| && CiEq(s[start..e], text) then Some(Hit(start, e, e)) else None
    case Padded(c) =>
      var k := SkipSpaces(s, start);
      if k < |s| && s[k] == c then
        var e := SkipSpaces(s, k + 1);
        Some(Hit(start, e, e))
      else None
    case LeadingNumber =>
      if start == 0 && |s| > 0 && IsDigit(s[0]) then
        var e := SkipNonSpaces(s, 0);
        Some(Hit(0, e, e))
      else None
    case UpToLastDash =>
      if start == 0 then
        var line := LineEnd(s, 0);
        match LastDash(s, line, line)
        case Some(j) => Some(Hit(0, j + 3, j + 3))
        case None => None
      else None
    case Trailing(word) =>
      var e := start + 1 + |word|;
      if e <= |s| && !IsWordChar(s[start]) && CiEq(s[start + 1..e], word) && DollarAt(s, e) then
        Some(Hit(start + 1, e, e))
      else None
    case Leading(alternatives, suffix) =>
      if start == 0 then
        match LeadingEnd(s, alternatives, suffix)
        case Some(e) => Some(Hit(0, e, e))
        case None => None
      else None
  }

  /** A word-bounded pattern matches at `start` exactly when one of its words
      follows there, either at the very beginning or after a non-word
      character. */
  lemma BoundedMatch(words: seq<Word>, s: string, start: nat)
    requires start <= |s|
    ensures MatchAt(Bounded(words), s, start).Some? <==>
      (start == 0 && WordAt(s, 0, words).Some?)
      || (start < |s| && !IsWordChar(s[start]) && WordAt(s, start + 1, words).Some?)
  {
  }

  /** The matches of one pattern in one input: `m(q)` is the match that
      starts at `q`. `find` and `replaceAll` only ever ask this question, so
      they are stated over a matcher and hold for every pattern. */
  type Matcher = nat -> Option<Hit>

  /** The matcher of pattern `p` on input `s`. */
  function Matches(p: Pattern, s: string): Matcher {
    (q: nat) => if q <= |s| then MatchAt(p, s, q) else None
  }

  /** Every match `m` reports is a well-formed match of `s` at its position. */
  predicate Sound(m: Matcher, s: string) {
    forall q: nat | q <= |s| && m(q).Some? :: HitIn(s, q, m(q).value)
  }

  lemma MatchesSound(p: Pattern, s: string)
    ensures Sound(Matches(p, s), s)
  {
  }

  /** `Matcher.find()` from `from`: the leftmost position at or after `from`
      where `m` reports a match, with that match. */
  function FindFrom(m: Matcher, s: string, from: nat): (r: Option<(nat, Hit)>)
    requires from <= |s| && Sound(m, s)
    ensures r.Some? ==> from <= r.value.0 < |s| && m(r.value.0) == Some(r.value.1)
    ensures r.Some? ==> forall q: nat | from <= q < r.value.0 :: m(q).None?
    ensures r.None? ==> forall q: nat | from <= q <= |s| :: m(q).None?
    decreases |s| - from
  {
    match m(from)
    case Some(h) => Some((from, h))
    case None => if from == |s| then None else FindFrom(m, s, from + 1)
  }

  /** `p.matcher(s).find()`: the first match of `p` in `s`. */
  function Find(p: Pattern, s: string): (r: Option<(nat, Hit)>)
    ensures r.Some? ==> r.value.0 < |s| && MatchAt(p, s, r.value.0) == Some(r.value.1)
    ensures r.Some? ==> forall q | 0 <= q < r.value.0 :: MatchAt(p, s, q).None?
    ensures r.None? ==> forall q | 0 <= q <= |s| :: MatchAt(p, s, q).None?
  {
    MatchesSound(p, s);
    var r := FindFrom(Matches(p, s), s, 0);
    assert forall q: nat | q <= |s| :: Matches(p, s)(q) == MatchAt(p, s, q);
    r
  }

  /** What one match is replaced by. */
  function Render(r: Replacement, s: string, start: nat, h: Hit): string
    requires HitIn(s, start, h)
  {
    match r
    case Delete => ""
    case Constant(text) => text
    case KeepBounds(middle) => s[start..h.innerStart] + middle + s[h.innerEnd..h.end]
  }

  /** `replaceAll` on the rest of the input from `from`: copy characters up to the
      next match, append its replacement, and go on after the match. */
  function ReplaceFrom(m: Matcher, r: Replacement, s: string, from: nat): string
    requires from <= |s| && Sound(m, s)
    decreases |s| - from
  {
    if from == |s| then ""
    else
      match m(from)
      case Some(h) => Render(r, s, from, h) + ReplaceFrom(m, r, s, h.end)
      case None => [s[from]] + ReplaceFrom(m, r, s, from + 1)
  }

  /** `p.matcher(s).replaceAll(r)`. */
  function ReplaceAll(p: Pattern, r: Replacement, s: string): string {
    MatchesSound(p, s);
    ReplaceFrom(Matches(p, s), r, s, 0)
  }

  // ---------------------------------------------------------------------
  // Properties of replaceAll

  /** Characters where no match starts are copied unchanged. */
  lemma {:induction false} ReplaceCopiesPlainText(m: Matcher, r: Replacement, s: string, from: nat, to: nat)
    requires from <= to <= |s| && Sound(m, s)
    requires forall q: nat | from <= q < to :: m(q).None?
    ensures ReplaceFrom(m, r, s, from) == s[from..to] + ReplaceFrom(m, r, s, to)
    decreases (to as int) - (from as int)
  {
    if from < to {
      ReplaceCopiesPlainText(m, r, s, from + 1, to);
      var rest := ReplaceFrom(m, r, s, to);
      assert m(from).None?;
      calc {
        ReplaceFrom(m, r, s, from);
        [s[from]] + ReplaceFrom(m, r, s, from + 1);
        [s[from]] + (s[from + 1..to] + rest);
        ([s[from]] + s[from + 1..to]) + rest;
        { assert [s[from]] + s[from + 1..to] == s[from..to]; }
        s[from..to] + rest;
      }
    }
  }

  /** Without a match, `replaceAll` gives its input back. */
  lemma ReplaceWithoutMatch(p: Pattern, r: Replacement, s: string)
    requires forall q | 0 <= q <= |s| :: MatchAt(p, s, q).None?
    ensures ReplaceAll(p, r, s) == s
  {
    MatchesSound(p, s);
    ReplaceCopiesPlainText(Matches(p, s), r, s, 0, |s|);
  }

  /** When the pattern matches at one position and nowhere before it or after
      the text that match consumes, `replaceAll` replaces that match and
      nothing else. Matches that would start inside the consumed text are
      never looked for. */
  lemma ReplaceSingleMatch(p: Pattern, r: Replacement, s: string, i: nat, h: Hit)
    requires i <= |s| && MatchAt(p, s, i) == Some(h)
    requires forall q | 0 <= q <= |s| && (q < i || h.end <= q) :: MatchAt(p, s, q).None?
    ensures ReplaceAll(p, r, s) == s[..i] + Render(r, s, i, h) + s[h.end..]
  {
    MatchesSound(p, s);
    var m := Matches(p, s);
    assert m(i) == Some(h);
    forall q: nat | q <= |s| && (q < i || h.end <= q) ensures m(q).None? {
      assert m(q) == MatchAt(p, s, q);
    }
    ReplaceOnlyMatch(m, r, s, i, h);
  }

  /** The same for any matcher. */
  lemma ReplaceOnlyMatch(m: Matcher, r: Replacement, s: string, i: nat, h: Hit)
    requires Sound(m, s) && i <= |s| && m(i) == Some(h)
    requires forall q: nat | q <= |s| && (q < i || h.end <= q) :: m(q).None?
    ensures ReplaceFrom(m, r, s, 0) == s[..i] + Render(r, s, i, h) + s[h.end..]
  {
    assert HitIn(s, i, h);
    var middle := Render(r, s, i, h);
    ReplaceCopiesPlainText(m, r, s, 0, i);
    ReplaceCopiesPlainText(m, r, s, h.end, |s|);
    calc {
      ReplaceFrom(m, r, s, 0);
      s[0..i] + ReplaceFrom(m, r, s, i);
      s[0..i] + (middle + ReplaceFrom(m, r, s, h.end));
      s[0..i] + (middle + (s[h.end..|s|] + ReplaceFrom(m, r, s, |s|)));
      { assert s[0..i] == s[..i] && s[h.end..|s|] == s[h.end..] && ReplaceFrom(m, r, s, |s|) == ""; }
      s[..i] + (middle + (s[h.end..] + ""));
      { assert s[h.end..] + "" == s[h.end..]; }
      s[..i] + middle + s[h.end..];
    }
  }

  /** A pattern anchored with `^` matches only at position 0. */
  predicate Anchored(p: Pattern) {
    p.LeadingNumber? || p.UpToLastDash? || p.Leading?
  }

  /** An anchored pattern is replaced at most once, at the start. */
  lemma ReplaceAnchored(p: Pattern, r: Replacement, s: string)
    requires Anchored(p)
    ensures MatchAt(p, s, 0).None? ==> ReplaceAll(p, r, s) == s
    ensures MatchAt(p, s, 0).Some? ==>
      ReplaceAll(p, r, s) == Render(r, s, 0, MatchAt(p, s, 0).value) + s[MatchAt(p, s, 0).value.end..]
  {
    match MatchAt(p, s, 0)
    case None =>
      ReplaceWithoutMatch(p, r, s);
    case Some(h) =>
      ReplaceSingleMatch(p, r, s, 0, h);
  }

  /** A `Trailing` pattern whose word ends in an ASCII letter matches at one
      position at most: the match ends with the input, or just before a final
      line terminator. */
  lemma TrailingMatchUnique(word: Word, s: string, i: nat, j: nat)
    requires 'a' <= word[|word| - 1] <= 'z'
    requires i <= |s| && j <= |s|
    requires MatchAt(Trailing(word), s, i).Some? && MatchAt(Trailing(word), s, j).Some?
    ensures i == j
  {
    var n := |word|;
    var ei, ej := i + 1 + n, j + 1 + n;
    assert AsciiLower(s[i + 1..ei][n - 1]) == AsciiLower(word[n - 1]);
    assert AsciiLower(s[j + 1..ej][n - 1]) == AsciiLower(word[n - 1]);
    assert IsWordChar(s[ei - 1]) && IsWordChar(s[ej - 1]);
  }

  /** Therefore a `Trailing` pattern is replaced at most once. */
  lemma ReplaceTrailing(word: Word, r: Replacement, s: string, i: nat)
    requires 'a' <= word[|word| - 1] <= 'z'
    requires i <= |s| && MatchAt(Trailing(word), s, i).Some?
    ensures ReplaceAll(Trailing(word), r, s)
         == s[..i] + Render(r, s, i, MatchAt(Trailing(word), s, i).value) + s[i + 1 + |word|..]
  {
    forall q | 0 <= q <= |s| && q != i ensures MatchAt(Trailing(word), s, q).None? {
      if MatchAt(Trailing(word), s, q).Some? {
        TrailingMatchUnique(word, s, i, q);
      }
    }
    ReplaceSingleMatch(Trailing(word), r, s, i, MatchAt(Trailing(word), s, i).value);
  }

  /** On a string of word characters only, a `Bounded` pattern can only match
      the whole string, at position 0. */
  lemma BoundedOnWordChars(words: seq<Word>, s: string, q: nat)
    requires q <= |s| && forall i | 0 <= i < |s| :: IsWordChar(s[i])
    requires forall k | 0 <= k < |words| :: !CiEq(s, words[k])
    ensures MatchAt(Bounded(words), s, q).None?
  {
  }
}
