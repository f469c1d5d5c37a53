/** The text passes of `cleanTripHeadsign` and `cleanStopName`: the patterns the
    agency tools compile themselves, the to/via trimming the older file does by
    hand, and the order in which each file chains them. The helpers of the
    shared `CleanUtils` class are passed in as opaque functions. */
module Cleaning {
  import opened Wrappers
  import opened JavaText
  import opened Regex

  /** The `CleanUtils` helpers the passes call. `cleanAnd` and `cleanAt` stand for
      `CLEAN_AND.matcher(s).replaceAll(CLEAN_AND_REPLACEMENT)` and the same with
      `CLEAN_AT`. */
  datatype CleanUtils = CleanUtils(
    removePoints: string -> string,
    cleanStreetTypes: string -> string,
    cleanNumbers: string -> string,
    cleanLabel: string -> string,
    cleanSlashes: string -> string,
    keepToAndRemoveVia: string -> string,
    cleanAnd: string -> string,
    cleanAt: string -> string)

  const Exch: string := "Exch"

  const Exchange: Pattern := Bounded(["exchange", "ex"])
  const ExchangeReplacement: Replacement := KeepBounds(Exch)
  const StartsWithNumber: Pattern := LeadingNumber
  const StartsWithDash: Pattern := UpToLastDash
  const To: Pattern := Bounded(["to"])
  const Via: Pattern := Bounded(["via"])
  const And: Pattern := Literal(" and ")
  const AndReplacement: Replacement := Constant(" & ")
  const CleanP1: Pattern := Padded('(')
  const CleanP1Replacement: Replacement := Constant(" (")
  const CleanP2: Pattern := Padded(')')
  const CleanP2Replacement: Replacement := Constant(") ")
  const EndsWithExpress: Pattern := Trailing("express")
  const Special: Pattern := Bounded(["special"])
  const StartsWithImpl: Pattern := Leading(["(-IMPL-)"], "")
  const StartsWithBound: Pattern := Leading(["east", "west", "north", "south"], "bound")

  // ---------------------------------------------------------------------
  // Anchored passes

  /** `STARTS_WITH_NUMBER`: a leading token that starts with a digit is
      removed up to, not including, the first white space; anything else is
      kept. */
  function StripLeadingNumber(s: string): (r: string)
    ensures |s| > 0 && IsDigit(s[0]) ==> r == s[SkipNonSpaces(s, 0)..]
    ensures !(|s| > 0 && IsDigit(s[0])) ==> r == s
    ensures r == [] || !IsDigit(r[0])
  {
    ReplaceAnchored(StartsWithNumber, Delete, s);
    ReplaceAll(StartsWithNumber, Delete, s)
  }

  /** Removing the leading number token a second time changes nothing. */
  lemma StripLeadingNumberIdempotent(s: string)
    ensures StripLeadingNumber(StripLeadingNumber(s)) == StripLeadingNumber(s)
  {
  }

  /** The end of the first line of `s`: what `.*` can cover from position 0. */
  function FirstLineEnd(s: string): nat
    ensures FirstLineEnd(s) <= |s|
  {
    LineEnd(s, 0)
  }

  /** The last `" - "` that lies wholly within the first line. */
  function LastDashInFirstLine(s: string): (r: Option<nat>)
    ensures r.Some? ==> DashAt(s, r.value) && r.value + 3 <= FirstLineEnd(s)
    ensures r.Some? ==> forall j | r.value < j && j + 3 <= FirstLineEnd(s) :: !DashAt(s, j)
    ensures r.None? ==> forall j | 0 <= j && j + 3 <= FirstLineEnd(s) :: !DashAt(s, j)
  {
    LastDash(s, FirstLineEnd(s), FirstLineEnd(s))
  }

  /** `STARTS_WITH_DASH`: everything up to and including the last `" - "` of the
      first line is removed; without one the input is kept. */
  function StripDashPrefix(s: string): (r: string)
    ensures LastDashInFirstLine(s).Some? ==> r == s[LastDashInFirstLine(s).value + 3..]
    ensures LastDashInFirstLine(s).None? ==> r == s
  {
    ReplaceAnchored(StartsWithDash, Delete, s);
    ReplaceAll(StartsWithDash, Delete, s)
  }

  /** Cutting a prefix that holds no line terminator shortens the first line
      by the same amount. */
  lemma FirstLineOfSuffix(s: string, k: nat)
    requires k <= FirstLineEnd(s)
    ensures FirstLineEnd(s[k..]) == FirstLineEnd(s) - k
  {
  }

  /** Once the prefix up to the last `" - "` is gone, none is left in the first
      line, so the pass does nothing a second time. */
  lemma StripDashPrefixIdempotent(s: string)
    ensures LastDashInFirstLine(StripDashPrefix(s)).None?
    ensures StripDashPrefix(StripDashPrefix(s)) == StripDashPrefix(s)
  {
    match LastDashInFirstLine(s)
    case None =>
    case Some(j) =>
      var r := s[j + 3..];
      FirstLineOfSuffix(s, j + 3);
      forall k | 0 <= k && k + 3 <= FirstLineEnd(r) ensures !DashAt(r, k) {
        assert DashAt(r, k) ==> DashAt(s, j + 3 + k);
      }
  }

  /** `ENDS_WITH_EXPRESS` matches at `i`: a non-word character, then "express" in
      any ASCII case, then the end of input (or a final line terminator). */
  predicate ExpressSuffixAt(s: string, i: nat) {
    i + 8 <= |s| && !IsWordChar(s[i]) && CiEq(s[i + 1..i + 8], "express") && DollarAt(s, i + 8)
  }

  /** `ENDS_WITH_EXPRESS` with an empty replacement: the one trailing
      "express" and the character before it are removed, nothing else. */
  function StripTrailingExpress(s: string): (r: string)
    ensures forall i | 0 <= i <= |s| && ExpressSuffixAt(s, i) :: r == s[..i] + s[i + 8..]
    ensures (forall i | 0 <= i <= |s| :: !ExpressSuffixAt(s, i)) ==> r == s
  {
    StripTrailingExpressCases(s);
    ReplaceAll(EndsWithExpress, Delete, s)
  }

  lemma StripTrailingExpressCases(s: string)
    ensures forall i | 0 <= i <= |s| :: MatchAt(EndsWithExpress, s, i).Some? <==> ExpressSuffixAt(s, i)
    ensures forall i | 0 <= i <= |s| && ExpressSuffixAt(s, i) ::
      ReplaceAll(EndsWithExpress, Delete, s) == s[..i] + s[i + 8..]
    ensures (forall i | 0 <= i <= |s| :: !ExpressSuffixAt(s, i)) ==> ReplaceAll(EndsWithExpress, Delete, s) == s
  {
    forall i | 0 <= i <= |s| ensures MatchAt(EndsWithExpress, s, i).Some? <==> ExpressSuffixAt(s, i) {
      assert |"express"| == 7;
    }
    forall i | 0 <= i <= |s| && ExpressSuffixAt(s, i)
      ensures ReplaceAll(EndsWithExpress, Delete, s) == s[..i] + s[i + 8..]
    {
      ReplaceTrailing("express", Delete, s, i);
    }
    if forall i | 0 <= i <= |s| :: !ExpressSuffixAt(s, i) {
      ReplaceWithoutMatch(EndsWithExpress, Delete, s);
    }
  }

  /** The leading number, the dash prefix and the trailing "express", in that
      order (older 844-846, newer 807-809). */
  function AnchoredPasses(s: string): string {
    StripTrailingExpress(StripDashPrefix(StripLeadingNumber(s)))
  }

  /** `STARTS_WITH_IMPL`: a leading "(-IMPL-)" in any ASCII case is removed. */
  function StripImpl(s: string): (r: string)
    ensures |s| >= 8 && CiEq(s[..8], "(-IMPL-)") ==> r == s[8..]
    ensures !(|s| >= 8 && CiEq(s[..8], "(-IMPL-)")) ==> r == s
  {
    ReplaceAnchored(StartsWithImpl, Delete, s);
    assert "(-IMPL-)" + "" == "(-IMPL-)";
    ReplaceAll(StartsWithImpl, Delete, s)
  }

  /** A compass point followed by "bound", in any ASCII case. */
  predicate BoundPrefix(s: string, d: string) {
    d in ["east", "west", "north", "south"] && |d| + 5 <= |s| && CiEq(s[..|d| + 5], d + "bound")
  }

  /** `STARTS_WITH_BOUND`: a leading "eastbound", "westbound", "northbound" or
      "southbound" in any ASCII case is removed. */
  function StripBound(s: string): (r: string)
    ensures forall d | BoundPrefix(s, d) :: r == s[|d| + 5..]
    ensures (forall d :: !BoundPrefix(s, d)) ==> r == s
  {
    StripBoundCases(s);
    ReplaceAll(StartsWithBound, Delete, s)
  }

  lemma StripBoundCases(s: string)
    ensures forall d | BoundPrefix(s, d) :: ReplaceAll(StartsWithBound, Delete, s) == s[|d| + 5..]
    ensures (forall d :: !BoundPrefix(s, d)) ==> ReplaceAll(StartsWithBound, Delete, s) == s
  {
    forall d | BoundPrefix(s, d) ensures ReplaceAll(StartsWithBound, Delete, s) == s[|d| + 5..] {
      StripBoundPrefix(s, d);
    }
    if forall d :: !BoundPrefix(s, d) {
      StripBoundNone(s);
    }
  }

  lemma StripBoundNone(s: string)
    requires forall d :: !BoundPrefix(s, d)
    ensures ReplaceAll(StartsWithBound, Delete, s) == s
  {
    ReplaceAnchored(StartsWithBound, Delete, s);
    NoBoundMatch(s);
  }

  lemma StripBoundPrefix(s: string, d: string)
    requires BoundPrefix(s, d)
    ensures ReplaceAll(StartsWithBound, Delete, s) == s[|d| + 5..]
  {
    ReplaceAnchored(StartsWithBound, Delete, s);
    BoundMatchEnd(s, d);
    var h := Hit(0, |d| + 5, |d| + 5);
    assert MatchAt(StartsWithBound, s, 0) == Some(h);
    assert Render(Delete, s, 0, h) + s[h.end..] == s[|d| + 5..];
  }

  /** The four compass points start with four different letters, so the
      alternative that matches is the one the input starts with. */
  lemma BoundMatchEnd(s: string, d: string)
    requires BoundPrefix(s, d)
    ensures LeadingEnd(s, ["east", "west", "north", "south"], "bound") == Some(|d| + 5)
  {
    var alternatives: seq<Word> := ["east", "west", "north", "south"];
    var k :| 0 <= k < 4 && alternatives[k] == d;
    assert AsciiLower(s[..|d| + 5][0]) == d[0];
    forall j | 0 <= j < k && |alternatives[j]| + 5 <= |s|
      ensures !CiEq(s[..|alternatives[j]| + 5], alternatives[j] + "bound")
    {
      assert s[..|alternatives[j]| + 5][0] == s[..|d| + 5][0];
      assert (alternatives[j] + "bound")[0] == alternatives[j][0] != d[0];
    }
    LeadingEndFirstHit(s, alternatives, "bound", k);
  }

  lemma NoBoundMatch(s: string)
    requires forall d :: !BoundPrefix(s, d)
    ensures LeadingEnd(s, ["east", "west", "north", "south"], "bound").None?
  {
    var alternatives: seq<Word> := ["east", "west", "north", "south"];
    forall k | 0 <= k < 4 && |alternatives[k]| + 5 <= |s|
      ensures !CiEq(s[..|alternatives[k]| + 5], alternatives[k] + "bound")
    {
      assert !BoundPrefix(s, alternatives[k]);
    }
  }

  // ---------------------------------------------------------------------
  // Word-bounded replacements

  /** `EXCHANGE` replaced by "$2Exch$4": a standalone "exchange" or "ex" becomes
      "Exch", the bounding characters are kept. */
  function AbbreviateExchange(s: string): string {
    ReplaceAll(Exchange, ExchangeReplacement, s)
  }

  /** `SPECIAL` replaced by the empty string: a standalone "special" is removed
      together with the bounding characters it consumed. */
  function RemoveSpecial(s: string): string {
    ReplaceAll(Special, Delete, s)
  }

  /** A headsign that is only the word "special", in any ASCII case, is emptied. */
  lemma RemoveSpecialAlone(s: string)
    requires CiEq(s, "special")
    ensures RemoveSpecial(s) == ""
  {
    assert s[0..7] == s;
    assert MatchAt(Special, s, 0) == Some(Hit(0, 7, 7));
    assert ReplaceFrom(Matches(Special, s), Delete, s, 7) == "";
  }

  /** A single word of ASCII letters. */
  predicate PlainWord(s: string) {
    |s| > 0 && forall i | 0 <= i < |s| :: IsLetter(s[i])
  }

  lemma ExchangeWordChars(word: string)
    requires CiEq(word, "exchange") || CiEq(word, "ex")
    ensures forall k | 0 <= k < |word| :: IsWordChar(word[k])
  {
    forall k | 0 <= k < |word| ensures IsWordChar(word[k]) {
      assert AsciiLower(word[k]) in "exchange";
    }
  }

  /** Every word of the list is made of ASCII letters. */
  predicate LetterWords(words: seq<Word>) {
    forall k | 0 <= k < |words| :: Letters(words[k])
  }

  /** A text made of ASCII letters only. */
  predicate Letters(w: string) {
    forall i | 0 <= i < |w| :: IsLetter(w[i])
  }

  /** A character that folds to the same letter as a letter is a letter. */
  lemma FoldsToLetter(c: char, d: char)
    requires IsLetter(d) && AsciiLower(c) == AsciiLower(d)
    ensures IsLetter(c)
  {
  }

  /** A text that matches a word of letters is made of word characters, so it
      ends before any non-word character that follows its start. */
  lemma LetterTextEndsBefore(s: string, j: nat, w: Word, p: nat)
    requires j <= p < |s| && !IsWordChar(s[p])
    requires j + |w| <= |s| && CiEq(s[j..j + |w|], w)
    requires Letters(w)
    ensures j + |w| <= p
  {
    if p < j + |w| {
      assert s[j..j + |w|][p - j] == s[p];
      FoldsToLetter(s[p], w[p - j]);
    }
  }

  /** No word of letters matches at a non-word character. */
  lemma NoLetterWordAtNonWordChar(s: string, j: nat, words: seq<Word>)
    requires LetterWords(words)
    requires j < |s| && !IsWordChar(s[j])
    ensures WordAt(s, j, words).None?
  {
    if WordAt(s, j, words).Some? {
      var e := WordAt(s, j, words).value.0;
      var k :| 0 <= k < |words| && e == j + |words[k]| && CiEq(s[j..e], words[k]);
      LetterTextEndsBefore(s, j, words[k], j);
    }
  }

  /** The word of the list that `WordAt` found at `j`. */
  lemma FoundWord(s: string, j: nat, words: seq<Word>) returns (k: nat)
    requires j <= |s| && WordAt(s, j, words).Some?
    ensures k < |words| && WordAt(s, j, words).value.0 == j + |words[k]| <= |s|
    ensures CiEq(s[j..j + |words[k]|], words[k]) && TrailEnd(s, j + |words[k]|).Some?
  {
    k :| 0 <= k < |words| && WordAt(s, j, words).value.0 == j + |words[k]| && CiEq(s[j..j + |words[k]|], words[k]);
  }

  /** A word that matches at `j` and ends before position `p` of `s`, followed
      by a non-word character, matches in `s[..p + 1]` as well. */
  lemma WordInPrefixAt(s: string, p: nat, j: nat, words: seq<Word>, k: nat)
    requires k < |words| && j + |words[k]| <= p < |s|
    requires CiEq(s[j..j + |words[k]|], words[k]) && TrailEnd(s, j + |words[k]|).Some?
    ensures WordAt(s[..p + 1], j, words).Some?
  {
    var r := s[..p + 1];
    var e := j + |words[k]|;
    assert r[j..e] == s[j..e];
    assert r[e] == s[e];
    WordAtWitness(r, j, words, k);
  }

  /** A word of letters that starts at or before a non-word character of `s` at
      `p` ends before it, so it is found in `s[..p + 1]` as well. */
  lemma LetterWordInPrefix(words: seq<Word>, s: string, p: nat, j: nat)
    requires LetterWords(words)
    requires j <= p < |s| && !IsWordChar(s[p])
    requires WordAt(s, j, words).Some?
    ensures WordAt(s[..p + 1], j, words).Some?
  {
    var k := FoundWord(s, j, words);
    LetterTextEndsBefore(s, j, words[k], p);
    WordInPrefixAt(s, p, j, words, k);
  }

  /** Where the word of a word-bounded match starts: at the very beginning, or
      just after the non-word character the match starts with. */
  lemma BoundedHitWord(words: seq<Word>, s: string, q: nat) returns (j: nat)
    requires q <= |s| && MatchAt(Bounded(words), s, q).Some?
    ensures j <= |s| && WordAt(s, j, words).Some?
    ensures (q == 0 && j == 0) || (j == q + 1 && q < |s| && !IsWordChar(s[q]))
  {
    BoundedMatch(words, s, q);
    j := if q == 0 && WordAt(s, 0, words).Some? then 0 else q + 1;
  }

  /** Conversely, such a word makes a word-bounded match. */
  lemma BoundedHitOfWord(words: seq<Word>, s: string, q: nat, j: nat)
    requires j <= |s| && WordAt(s, j, words).Some?
    requires (q == 0 && j == 0) || (j == q + 1 && q < |s| && !IsWordChar(s[q]))
    ensures MatchAt(Bounded(words), s, q).Some?
  {
    BoundedMatch(words, s, q);
  }

  /** A match of a word-bounded pattern of letter words that starts before a
      non-word character of `s` at `p` is a match in `s[..p + 1]` too. */
  lemma BoundedHitInPrefix(words: seq<Word>, s: string, p: nat, q: nat)
    requires LetterWords(words)
    requires q < p < |s| && !IsWordChar(s[p])
    requires MatchAt(Bounded(words), s, q).Some?
    ensures MatchAt(Bounded(words), s[..p + 1], q).Some?
  {
    var r := s[..p + 1];
    var j := BoundedHitWord(words, s, q);
    LetterWordInPrefix(words, s, p, j);
    if j == q + 1 {
      assert r[q] == s[q];
    }
    BoundedHitOfWord(words, r, q, j);
  }

  /** A word-bounded match of letter words after a non-word character at `i`
      is the one at `i`: the `^` branch cannot match there. */
  lemma BoundedHitAfter(words: seq<Word>, s: string, i: nat, e: nat, t: nat)
    requires LetterWords(words)
    requires i < |s| && !IsWordChar(s[i]) && WordAt(s, i + 1, words) == Some((e, t))
    ensures MatchAt(Bounded(words), s, i) == Some(Hit(i + 1, e, t))
  {
    if i == 0 {
      NoLetterWordAtNonWordChar(s, 0, words);
    }
  }

  /** The words of `EXCHANGE` are made of letters. */
  lemma ExchangeLetterWords()
    ensures LetterWords(["exchange", "ex"])
  {
  }

  /** A listed word of letters written at `j` in any ASCII case and followed
      by a boundary is the word `WordAt` finds there: a listed word ending
      earlier would end before a letter, one ending later would run over the
      boundary. */
  lemma LetterWordFound(words: seq<Word>, s: string, j: nat, word: string, k: nat, t: nat)
    requires LetterWords(words) && k < |words| && CiEq(word, words[k])
    requires j + |word| <= |s| && s[j..j + |word|] == word && TrailEnd(s, j + |word|) == Some(t)
    ensures WordAt(s, j, words) == Some((j + |word|, t))
  {
    WordAtWitness(s, j, words, k);
  }

  /** Where the match of a word standing after `lead` starts: at the boundary
      character that ends `lead`, or at 0 when the word opens the text. */
  function MatchStart(lead: string): nat {
    if lead == [] then 0 else |lead| - 1
  }

  /** Where that match ends: the boundary character after the word is
      consumed, the end of input is not. */
  function MatchEnd(lead: string, word: string, tail: string): nat {
    if tail == [] then |lead| + |word| else |lead| + |word| + 1
  }

  /** `lead` is empty or ends with a non-word character. */
  predicate BoundaryBefore(lead: string) {
    lead == [] || !IsWordChar(lead[|lead| - 1])
  }

  /** `tail` is empty or starts with a non-word character. */
  predicate BoundaryAfter(tail: string) {
    tail == [] || !IsWordChar(tail[0])
  }

  /** `p` matches nowhere in `t` from position `from` on. */
  predicate NoHitFrom(p: Pattern, t: string, from: nat) {
    forall q | from <= q <= |t| :: MatchAt(p, t, q).None?
  }

  /** The word between `lead` and `tail` sits right after `lead`, and the
      boundary after it ends where `MatchEnd` says. */
  lemma WordBetween(lead: string, word: string, tail: string)
    requires BoundaryAfter(tail)
    ensures var s := lead + word + tail;
      var e := |lead| + |word|;
      e <= |s| && s[|lead|..e] == word && TrailEnd(s, e) == Some(MatchEnd(lead, word, tail))
  {
    var s := lead + word + tail;
    var e := |lead| + |word|;
    assert s[|lead|..e] == word;
    if tail != [] {
      assert s[e] == tail[0];
    }
  }

  /** A word found at the very start makes the match at 0. */
  lemma BoundedHitAtStart(words: seq<Word>, s: string, e: nat, t: nat)
    requires WordAt(s, 0, words) == Some((e, t))
    ensures MatchAt(Bounded(words), s, 0) == Some(Hit(0, e, t))
  {
  }

  /** The listed word between two boundaries is the word `WordAt` finds
      after `lead`. */
  lemma WordFoundBetween(words: seq<Word>, lead: string, word: string, tail: string, k: nat)
    requires LetterWords(words) && k < |words| && CiEq(word, words[k])
    requires BoundaryAfter(tail)
    ensures WordAt(lead + word + tail, |lead|, words) == Some((|lead| + |word|, MatchEnd(lead, word, tail)))
  {
    WordBetween(lead, word, tail);
    LetterWordFound(words, lead + word + tail, |lead|, word, k, MatchEnd(lead, word, tail));
  }

  /** A listed word standing between two boundaries is matched from the
      boundary before it through the boundary after it. */
  lemma BoundedHitBetween(words: seq<Word>, lead: string, word: string, tail: string, k: nat)
    requires LetterWords(words) && k < |words| && CiEq(word, words[k])
    requires BoundaryBefore(lead) && BoundaryAfter(tail)
    ensures var s := lead + word + tail;
      MatchStart(lead) <= |s| &&
      MatchAt(Bounded(words), s, MatchStart(lead)) == Some(Hit(|lead|, |lead| + |word|, MatchEnd(lead, word, tail)))
  {
    var s := lead + word + tail;
    var e := |lead| + |word|;
    var t := MatchEnd(lead, word, tail);
    WordFoundBetween(words, lead, word, tail, k);
    if lead != [] {
      assert s[|lead| - 1] == lead[|lead| - 1];
      BoundedHitAfter(words, s, |lead| - 1, e, t);
    } else {
      BoundedHitAtStart(words, s, e, t);
    }
  }

  /** Before the boundary that ends `lead`, a word-bounded pattern of letter
      words finds in `lead + rest` only what it finds in `lead`. */
  lemma BoundedNoHitInLead(words: seq<Word>, lead: string, rest: string, q: nat)
    requires LetterWords(words) && lead != [] && !IsWordChar(lead[|lead| - 1])
    requires NoHitFrom(Bounded(words), lead, 0)
    requires q < |lead| - 1
    ensures MatchAt(Bounded(words), lead + rest, q).None?
  {
    var s := lead + rest;
    assert s[..|lead|] == lead;
    assert s[|lead| - 1] == lead[|lead| - 1];
    if MatchAt(Bounded(words), s, q).Some? {
      BoundedHitInPrefix(words, s, |lead| - 1, q);
    }
  }

  /** `WordAt` looks only at the text from its position on. */
  lemma {:induction false} WordAtSuffix(s: string, k: nat, j: nat, words: seq<Word>)
    requires k + j <= |s| && WordAt(s, k + j, words).Some?
    ensures WordAt(s[k..], j, words).Some?
    decreases |words|
  {
    var v := s[k..];
    var e := j + |words[0]|;
    if e <= |v| {
      assert s[k + j..k + e] == v[j..e];
      if e < |v| {
        assert s[k + e] == v[e];
      }
    }
    if WordAt(s, k + j, words[1..]).Some? {
      WordAtSuffix(s, k, j, words[1..]);
    }
  }

  /** A word-bounded match of `s` past the first character of `s[k..]` is a
      match of `s[k..]` at the same place. */
  lemma BoundedHitInSuffix(words: seq<Word>, s: string, k: nat, q: nat)
    requires 0 < q && k + q <= |s|
    requires MatchAt(Bounded(words), s, k + q).Some?
    ensures MatchAt(Bounded(words), s[k..], q).Some?
  {
    BoundedHitInside(words, s, k + q);
    WordAtSuffix(s, k, q + 1, words);
    var v := s[k..];
    assert s[k + q] == v[q];
    BoundedHitOfWord(words, v, q, q + 1);
  }

  /** A word-bounded match that does not start at 0 starts at a non-word
      character followed by a listed word. */
  lemma BoundedHitInside(words: seq<Word>, s: string, p: nat)
    requires 0 < p <= |s| && MatchAt(Bounded(words), s, p).Some?
    ensures p < |s| && !IsWordChar(s[p]) && WordAt(s, p + 1, words).Some?
  {
    BoundedMatch(words, s, p);
  }

  /** Past the first character of `tail`, a word-bounded pattern finds in
      `head + tail` only what it finds in `tail`. */
  lemma BoundedNoHitInTail(words: seq<Word>, head: string, tail: string, q: nat)
    requires NoHitFrom(Bounded(words), tail, 1)
    requires |head| < q <= |head| + |tail|
    ensures MatchAt(Bounded(words), head + tail, q).None?
  {
    var s := head + tail;
    assert s[|head|..] == tail;
    if MatchAt(Bounded(words), s, q).Some? {
      BoundedHitInSuffix(words, s, |head|, q - |head|);
    }
  }

  /** A listed word between two boundaries, with no other match in the text
      before it and none in the text after it, is the one match `replaceAll`
      replaces, boundaries included. */
  lemma BoundedSingleMatch(words: seq<Word>, r: Replacement, lead: string, word: string, tail: string, k: nat)
    requires LetterWords(words) && k < |words| && CiEq(word, words[k])
    requires BoundaryBefore(lead) && BoundaryAfter(tail)
    requires NoHitFrom(Bounded(words), lead, 0) && NoHitFrom(Bounded(words), tail, 1)
    ensures var s := lead + word + tail;
      var h := Hit(|lead|, |lead| + |word|, MatchEnd(lead, word, tail));
      HitIn(s, MatchStart(lead), h) &&
      ReplaceAll(Bounded(words), r, s) == s[..MatchStart(lead)] + Render(r, s, MatchStart(lead), h) + s[h.end..]
  {
    var s := lead + word + tail;
    var i := MatchStart(lead);
    var h := Hit(|lead|, |lead| + |word|, MatchEnd(lead, word, tail));
    BoundedHitBetween(words, lead, word, tail, k);
    forall q | 0 <= q <= |s| && (q < i || h.end <= q) ensures MatchAt(Bounded(words), s, q).None? {
      BoundedMatch(words, s, q);
      if q < i {
        BoundedNoHitInLead(words, lead, word + tail, q);
        assert lead + (word + tail) == s;
      } else if tail != [] {
        BoundedNoHitInTail(words, lead + word, tail, q);
      }
    }
    ReplaceSingleMatch(Bounded(words), r, s, i, h);
  }

  /** `lead` without the boundary character that ends it. */
  function DropLast(lead: string): string {
    if lead == [] then [] else lead[..|lead| - 1]
  }

  /** `tail` without the boundary character that starts it. */
  function DropFirst(tail: string): string {
    if tail == [] then [] else tail[1..]
  }

  /** With a `$2...$4` replacement the single match keeps its boundary
      characters around the new middle. */
  lemma BoundedSingleKeep(words: seq<Word>, m: string, lead: string, word: string, tail: string, k: nat)
    requires LetterWords(words) && k < |words| && CiEq(word, words[k])
    requires BoundaryBefore(lead) && BoundaryAfter(tail)
    requires NoHitFrom(Bounded(words), lead, 0) && NoHitFrom(Bounded(words), tail, 1)
    ensures ReplaceAll(Bounded(words), KeepBounds(m), lead + word + tail) == lead + m + tail
  {
    var s := lead + word + tail;
    var i := MatchStart(lead);
    var h := Hit(|lead|, |lead| + |word|, MatchEnd(lead, word, tail));
    BoundedSingleMatch(words, KeepBounds(m), lead, word, tail, k);
    assert Render(KeepBounds(m), s, i, h) == s[i..|lead|] + m + s[|lead| + |word|..h.end];
    KeptBounds(m, lead, word, tail);
  }

  /** The pieces of a `$2...$4` replacement of the word between `lead` and
      `tail` put back together. */
  lemma KeptBounds(m: string, lead: string, word: string, tail: string)
    ensures var s := lead + word + tail;
      var i := MatchStart(lead);
      var e := MatchEnd(lead, word, tail);
      i <= |lead| <= |lead| + |word| <= e <= |s| &&
      s[..i] + (s[i..|lead|] + m + s[|lead| + |word|..e]) + s[e..] == lead + m + tail
  {
    var s := lead + word + tail;
    var i := MatchStart(lead);
    var e := MatchEnd(lead, word, tail);
    assert s[..i] + s[i..|lead|] == lead;
    assert s[|lead| + |word|..e] + s[e..] == tail;
  }

  /** With the empty replacement the single match is removed together with
      its boundary characters. */
  lemma BoundedSingleDelete(words: seq<Word>, lead: string, word: string, tail: string, k: nat)
    requires LetterWords(words) && k < |words| && CiEq(word, words[k])
    requires BoundaryBefore(lead) && BoundaryAfter(tail)
    requires NoHitFrom(Bounded(words), lead, 0) && NoHitFrom(Bounded(words), tail, 1)
    ensures ReplaceAll(Bounded(words), Delete, lead + word + tail) == DropLast(lead) + DropFirst(tail)
  {
    BoundedSingleMatch(words, Delete, lead, word, tail, k);
    DroppedBounds(lead, word, tail);
  }

  /** What is left around the word once it is removed with its boundaries. */
  lemma DroppedBounds(lead: string, word: string, tail: string)
    ensures var s := lead + word + tail;
      MatchStart(lead) <= MatchEnd(lead, word, tail) <= |s| &&
      s[..MatchStart(lead)] == DropLast(lead) && s[MatchEnd(lead, word, tail)..] == DropFirst(tail)
  {
    var s := lead + word + tail;
    assert s[..MatchStart(lead)] == DropLast(lead);
    assert s[MatchEnd(lead, word, tail)..] == DropFirst(tail);
  }

  /** A standalone "Exchange" or "Ex" (in any ASCII case) that is the only
      match becomes "Exch", wherever it stands, and the boundary characters
      around it are kept: "Queensway Exchange Bay E" becomes "Queensway Exch
      Bay E". */
  lemma AbbreviateSingleExchange(lead: string, word: string, tail: string)
    requires CiEq(word, "exchange") || CiEq(word, "ex")
    requires BoundaryBefore(lead) && BoundaryAfter(tail)
    requires NoHitFrom(Exchange, lead, 0) && NoHitFrom(Exchange, tail, 1)
    ensures AbbreviateExchange(lead + word + tail) == lead + Exch + tail
  {
    ExchangeLetterWords();
    if CiEq(word, "exchange") {
      BoundedSingleKeep(["exchange", "ex"], Exch, lead, word, tail, 0);
    } else {
      BoundedSingleKeep(["exchange", "ex"], Exch, lead, word, tail, 1);
    }
  }

  /** A match consumes the boundary character after its word, so a listed
      word right after it is never matched: "Ex Ex" becomes "Exch Ex". */
  lemma AdjacentExchangeKept()
    ensures AbbreviateExchange("Ex Ex") == "Exch Ex"
  {
    assert NoHitFrom(Exchange, " Ex", 1) by {
      forall q | 1 <= q <= 3 ensures MatchAt(Exchange, " Ex", q).None? {
        BoundedMatch(["exchange", "ex"], " Ex", q);
      }
    }
    AbbreviateSingleExchange("", "Ex", " Ex");
    assert "" + "Ex" + " Ex" == "Ex Ex";
  }

  /** A name after which `EXCHANGE` finds nothing, followed by a standalone
      "Exchange" or "Ex" (in any ASCII case, possibly with a final period),
      ends in "Exch" instead, as in "Queensway Exchange", "Mission Rec
      Exchange" and "Westbank Ex.". */
  lemma AbbreviateTrailingExchange(name: string, word: string, tail: string)
    requires forall q | 0 <= q <= |name| + 1 :: MatchAt(Exchange, name + " ", q).None?
    requires CiEq(word, "exchange") || CiEq(word, "ex")
    requires tail == "" || tail == "."
    ensures AbbreviateExchange(name + " " + word + tail) == name + " " + Exch + tail
  {
    assert NoHitFrom(Exchange, tail, 1) by {
      if tail == "." {
        assert MatchAt(Exchange, tail, 1).None?;
      }
    }
    AbbreviateSingleExchange(name + " ", word, tail);
  }

  /** The word of `SPECIAL` is made of letters. */
  lemma SpecialLetterWords()
    ensures LetterWords(["special"])
  {
  }

  /** A standalone "special" (in any ASCII case) that is the only match is
      removed together with the boundary characters around it. */
  lemma RemoveSingleSpecial(lead: string, word: string, tail: string)
    requires CiEq(word, "special")
    requires BoundaryBefore(lead) && BoundaryAfter(tail)
    requires NoHitFrom(Special, lead, 0) && NoHitFrom(Special, tail, 1)
    ensures RemoveSpecial(lead + word + tail) == DropLast(lead) + DropFirst(tail)
  {
    SpecialLetterWords();
    BoundedSingleDelete(["special"], lead, word, tail, 0);
  }

  /** A name after which `SPECIAL` finds nothing, followed by a standalone
      "Special" (possibly with a final period), is left as the name alone, as
      in "Boucherie Mtn Special". */
  lemma RemoveTrailingSpecial(name: string, word: string, tail: string)
    requires NoHitFrom(Special, name + " ", 0)
    requires CiEq(word, "special")
    requires tail == "" || tail == "."
    ensures RemoveSpecial(name + " " + word + tail) == name
  {
    assert NoHitFrom(Special, tail, 1) by {
      if tail == "." {
        assert MatchAt(Special, tail, 1).None?;
      }
    }
    RemoveSingleSpecial(name + " ", word, tail);
    assert DropLast(name + " ") == name;
  }

  /** In mid-text both boundary characters go with the word:
      "Route Special Service" becomes "RouteService". */
  lemma RemoveMidSpecial(a: string, c1: char, word: string, c2: char, b: string)
    requires !IsWordChar(c1) && !IsWordChar(c2) && CiEq(word, "special")
    requires NoHitFrom(Special, a + [c1], 0) && NoHitFrom(Special, [c2] + b, 1)
    ensures RemoveSpecial(a + [c1] + word + [c2] + b) == a + b
  {
    RemoveSingleSpecial(a + [c1], word, [c2] + b);
    assert DropLast(a + [c1]) == a;
    assert a + [c1] + word + ([c2] + b) == a + [c1] + word + [c2] + b;
  }

  /** `s` contains `w` somewhere, in any ASCII case. */
  predicate HasInfixCi(s: string, w: string) {
    exists j | 0 <= j && j + |w| <= |s| :: CiEq(s[j..][..|w|], w)
  }

  /** A word matched at `j` shows its first `n` characters at `j`. */
  lemma MatchedInfix(s: string, j: nat, w: string, n: nat)
    requires j + |w| <= |s| && CiEq(s[j..j + |w|], w) && n <= |w|
    ensures CiEq(s[j..][..n], w[..n])
  {
    forall i | 0 <= i < n ensures AsciiLower(s[j..][..n][i]) == AsciiLower(w[..n][i]) {
      assert s[j..][..n][i] == s[j..j + |w|][i];
    }
  }

  /** A word-bounded pattern finds nothing in a text that contains the first
      `n` characters of none of its words, in any case. */
  lemma BoundedWithoutInfix(words: seq<Word>, s: string, n: nat)
    requires forall k | 0 <= k < |words| :: n <= |words[k]| && !HasInfixCi(s, words[k][..n])
    ensures forall q | 0 <= q <= |s| :: MatchAt(Bounded(words), s, q).None?
  {
    forall q | 0 <= q <= |s| ensures MatchAt(Bounded(words), s, q).None? {
      if MatchAt(Bounded(words), s, q).Some? {
        var j := BoundedHitWord(words, s, q);
        var k := FoundWord(s, j, words);
        MatchedInfix(s, j, words[k], n);
      }
    }
  }

  /** A headsign without "ex" in it, in any case, has nothing to abbreviate. */
  lemma AbbreviateExchangeWithoutEx(s: string)
    requires !HasInfixCi(s, "ex")
    ensures AbbreviateExchange(s) == s
  {
    var words: seq<Word> := ["exchange", "ex"];
    assert words[0][..2] == "ex" && words[1][..2] == "ex";
    BoundedWithoutInfix(words, s, 2);
    ReplaceWithoutMatch(Exchange, ExchangeReplacement, s);
  }

  /** A headsign without "special" in it, in any case, keeps every character. */
  lemma RemoveSpecialWithoutSpecial(s: string)
    requires !HasInfixCi(s, "special")
    ensures RemoveSpecial(s) == s
  {
    var words: seq<Word> := ["special"];
    assert words[0][..7] == "special";
    BoundedWithoutInfix(words, s, 7);
    ReplaceWithoutMatch(Special, Delete, s);
  }

  // ---------------------------------------------------------------------
  // Literal and parenthesis replacements (older file only)

  /** `AND` replaced by `AND_REPLACEMENT`: every " and " (any case) becomes " & ". */
  function AmpersandForAnd(s: string): string {
    ReplaceAll(And, AndReplacement, s)
  }

  /** `CLEAN_P1` replaced by `CLEAN_P1_REPLACEMENT`: the white space around an
      opening parenthesis becomes one space before it. */
  function SpaceBeforeParen(s: string): string {
    ReplaceAll(CleanP1, CleanP1Replacement, s)
  }

  /** `CLEAN_P2` replaced by `CLEAN_P2_REPLACEMENT`: the white space around a
      closing parenthesis becomes one space after it. */
  function SpaceAfterParen(s: string): string {
    ReplaceAll(CleanP2, CleanP2Replacement, s)
  }

  /** Without " and " in it, in any case, a headsign keeps its words. */
  lemma AmpersandForAndWithoutAnd(s: string)
    requires !HasInfixCi(s, " and ")
    ensures AmpersandForAnd(s) == s
  {
    forall q | 0 <= q <= |s| ensures MatchAt(And, s, q).None? {
      if q + 5 <= |s| {
        assert s[q..q + 5] == s[q..][..5];
      }
    }
    ReplaceWithoutMatch(And, AndReplacement, s);
  }

  /** A character folds to a space only if it is one. */
  lemma FoldsToSpace(c: char)
    ensures AsciiLower(c) == ' ' ==> c == ' '
  {
  }

  /** One " and " after a word without spaces, followed by a text without
      " and ", becomes " & ", as in "Rutland and South Pandosy". */
  lemma AmpersandForSingleAnd(a: string, w: string, b: string)
    requires CiEq(w, " and ")
    requires ' ' !in a && !HasInfixCi(b, " and ")
    ensures AmpersandForAnd(a + w + b) == a + " & " + b
  {
    var s := a + w + b;
    var i := |a|;
    var h := Hit(i, i + 5, i + 5);
    assert s[i..i + 5] == w;
    assert MatchAt(And, s, i) == Some(h);
    forall q | 0 <= q <= |s| && (q < i || h.end <= q) ensures MatchAt(And, s, q).None? {
      if q < i {
        FoldsToSpace(a[q]);
        if q + 5 <= |s| {
          assert s[q..q + 5][0] == a[q];
        }
      } else if q + 5 <= |s| {
        assert s[q..q + 5] == b[q - h.end..][..5];
      }
    }
    ReplaceSingleMatch(And, AndReplacement, s, i, h);
    assert s[..i] == a && s[h.end..] == b;
  }

  /** A run of white space. */
  predicate Blank(pad: string) {
    forall k | 0 <= k < |pad| :: IsSpace(pad[k])
  }

  /** The white space from `i` runs exactly to `k`. */
  lemma SpacesTo(s: string, i: nat, k: nat)
    requires i <= k <= |s| && Blank(s[i..k]) && (k == |s| || !IsSpace(s[k]))
    ensures SkipSpaces(s, i) == k
    decreases k - i
  {
    if i < k {
      assert s[i] == s[i..k][0];
      assert s[i + 1..k] == s[i..k][1..];
      SpacesTo(s, i + 1, k);
    }
  }

  /** The padded `c` after `a` is matched there, padding included. */
  lemma PaddedHit(c: char, s: string, a: string, pad1: string, pad2: string, b: string)
    requires !IsSpace(c) && Blank(pad1) && Blank(pad2)
    requires b == [] || !IsSpace(b[0])
    requires s == a + pad1 + [c] + pad2 + b
    ensures MatchAt(Padded(c), s, |a|) == Some(Hit(|a|, |s| - |b|, |s| - |b|))
  {
    var i := |a|;
    var k := i + |pad1|;
    var e := k + 1 + |pad2|;
    assert s[i..k] == pad1 && s[k] == c && s[k + 1..e] == pad2;
    SpacesTo(s, i, k);
    SpacesTo(s, k + 1, e);
  }

  /** Outside that match the padded `c` is found nowhere. */
  lemma PaddedNoOtherHit(c: char, s: string, a: string, pad1: string, pad2: string, b: string, q: nat)
    requires c !in a && c !in b
    requires a == [] || !IsSpace(a[|a| - 1])
    requires s == a + pad1 + [c] + pad2 + b
    requires q <= |s| && (q < |a| || |s| - |b| <= q)
    ensures MatchAt(Padded(c), s, q).None?
  {
    var i, e := |a|, |s| - |b|;
    var j := SkipSpaces(s, q);
    if q < i {
      assert s[i - 1] == a[i - 1];
      if j < i {
        assert s[j] == a[j];
      }
    } else if j < |s| {
      assert s[j] == b[j - e];
    }
  }

  /** A padded character `c` that occurs once, between two texts that do not
      touch it with white space, is replaced once, padding included. */
  lemma PaddedSingle(c: char, t: string, a: string, pad1: string, pad2: string, b: string)
    requires !IsSpace(c) && c !in a && c !in b
    requires Blank(pad1) && Blank(pad2)
    requires a == [] || !IsSpace(a[|a| - 1])
    requires b == [] || !IsSpace(b[0])
    ensures ReplaceAll(Padded(c), Constant(t), a + pad1 + [c] + pad2 + b) == a + t + b
  {
    var s := a + pad1 + [c] + pad2 + b;
    var i, e := |a|, |s| - |b|;
    PaddedHit(c, s, a, pad1, pad2, b);
    forall q | 0 <= q <= |s| && (q < i || e <= q) ensures MatchAt(Padded(c), s, q).None? {
      PaddedNoOtherHit(c, s, a, pad1, pad2, b, q);
    }
    ReplaceSingleMatch(Padded(c), Constant(t), s, i, Hit(i, e, e));
    assert s[..i] == a && s[e..] == b;
  }

  /** The white space around a single opening parenthesis becomes one space
      before it, as in "Downtown(Exch)" becoming "Downtown (Exch)". */
  lemma SpaceBeforeSingleParen(a: string, pad1: string, pad2: string, b: string)
    requires '(' !in a && '(' !in b && Blank(pad1) && Blank(pad2)
    requires a == [] || !IsSpace(a[|a| - 1])
    requires b == [] || !IsSpace(b[0])
    ensures SpaceBeforeParen(a + pad1 + "(" + pad2 + b) == a + " (" + b
  {
    PaddedSingle('(', " (", a, pad1, pad2, b);
  }

  /** The white space around a single closing parenthesis becomes one space
      after it. */
  lemma SpaceAfterSingleParen(a: string, pad1: string, pad2: string, b: string)
    requires ')' !in a && ')' !in b && Blank(pad1) && Blank(pad2)
    requires a == [] || !IsSpace(a[|a| - 1])
    requires b == [] || !IsSpace(b[0])
    ensures SpaceAfterParen(a + pad1 + ")" + pad2 + b) == a + ") " + b
  {
    PaddedSingle(')', ") ", a, pad1, pad2, b);
  }

  /** Without an opening parenthesis a headsign is left as it is. */
  lemma SpaceBeforeParenWithoutParen(s: string)
    requires '(' !in s
    ensures SpaceBeforeParen(s) == s
  {
    ReplaceWithoutMatch(CleanP1, CleanP1Replacement, s);
  }

  /** Without a closing parenthesis a headsign is left as it is. */
  lemma SpaceAfterParenWithoutParen(s: string)
    requires ')' !in s
    ensures SpaceAfterParen(s) == s
  {
    ReplaceWithoutMatch(CleanP2, CleanP2Replacement, s);
  }

  // ---------------------------------------------------------------------
  // To / via trimming (older file only)

  /** Only the text after the first standalone "to" (and the character that
      bounds it) is kept; without one the input is kept. */
  function KeepAfterTo(s: string): (r: string)
    ensures Find(To, s).None? ==> r == s
    ensures Find(To, s).Some? ==> r == s[Find(To, s).value.1.end..]
  {
    match Find(To, s)
    case Some((_, h)) => s[h.end..]
    case None => s
  }

  /** Only the text before the first standalone "via" is kept; without one the
      input is kept. */
  function CutBeforeVia(s: string): (r: string)
    ensures Find(Via, s).None? ==> r == s
    ensures Find(Via, s).Some? ==> r == s[..Find(Via, s).value.0]
  {
    match Find(Via, s)
    case Some((start, _)) => s[..start]
    case None => s
  }

  /** The to/via step of the older `cleanTripHeadsign`: keep what follows the
      first standalone "to", then cut before the first standalone "via". */
  function TrimToVia(s: string): string {
    CutBeforeVia(KeepAfterTo(s))
  }

  /** With no standalone "to" and no standalone "via", the trimming keeps the
      headsign as it is. */
  lemma TrimToViaWithoutWords(s: string)
    requires forall q | 0 <= q <= |s| :: MatchAt(To, s, q).None?
    requires forall q | 0 <= q <= |s| :: MatchAt(Via, s, q).None?
    ensures TrimToVia(s) == s
  {
  }

  /** The trimmed headsign is a piece of the original one. */
  lemma TrimToViaIsInfix(s: string)
    ensures exists i, j | 0 <= i <= j <= |s| :: TrimToVia(s) == s[i..j]
  {
    var t := KeepAfterTo(s);
    var i := |s| - |t|;
    assert t == s[i..];
    var j := i + |TrimToVia(s)|;
    assert TrimToVia(s) == s[i..j];
  }

  /** A word match inside a prefix of `s` is a word match in `s` as well, as
      long as the prefix ends at a non-word character of `s` or at its end. */
  lemma WordAtInPrefix(s: string, p: nat, q: nat, words: seq<Word>)
    requires q <= p <= |s|
    requires p == |s| || !IsWordChar(s[p])
    requires WordAt(s[..p], q, words).Some?
    ensures WordAt(s, q, words).Some?
  {
    var r := s[..p];
    var k := FoundWord(r, q, words);
    var e := q + |words[k]|;
    assert r[q..e] == s[q..e];
    if e < p {
      assert r[e] == s[e];
    }
    WordAtWitness(s, q, words, k);
  }

  /** A word of the list that matches at `q` and is followed by a boundary
      makes `WordAt` succeed. */
  lemma WordAtWitness(s: string, q: nat, words: seq<Word>, k: nat)
    requires k < |words| && q + |words[k]| <= |s|
    requires CiEq(s[q..q + |words[k]|], words[k]) && TrailEnd(s, q + |words[k]|).Some?
    ensures WordAt(s, q, words).Some?
  {
  }

  /** A word-bounded match in a prefix of `s` that ends at a non-word character
      of `s` (or at its end) is one in `s` too. */
  lemma BoundedHitFromPrefix(words: seq<Word>, s: string, p: nat, q: nat)
    requires q <= p <= |s|
    requires p == |s| || !IsWordChar(s[p])
    requires MatchAt(Bounded(words), s[..p], q).Some?
    ensures MatchAt(Bounded(words), s, q).Some?
  {
    var r := s[..p];
    var j := BoundedHitWord(words, r, q);
    WordAtInPrefix(s, p, j, words);
    if j == q + 1 {
      assert r[q] == s[q];
    }
    BoundedHitOfWord(words, s, q, j);
  }

  /** A standalone "via" in a prefix of `s` that ends at a non-word character
      of `s` (or at its end) is one in `s` too. */
  lemma ViaInPrefix(s: string, p: nat, q: nat)
    requires q <= p <= |s|
    requires p == |s| || !IsWordChar(s[p])
    requires MatchAt(Via, s[..p], q).Some?
    ensures MatchAt(Via, s, q).Some?
  {
    BoundedHitFromPrefix(["via"], s, p, q);
  }

  /** After the cut, no standalone "via" is left. */
  lemma CutBeforeViaLeavesNoVia(s: string)
    ensures forall q | 0 <= q <= |CutBeforeVia(s)| :: MatchAt(Via, CutBeforeVia(s), q).None?
  {
    match Find(Via, s)
    case None =>
    case Some((p, h)) =>
      var r := s[..p];
      assert p == 0 || !IsWordChar(s[p]);
      forall q | 0 <= q <= |r| ensures MatchAt(Via, r, q).None? {
        if MatchAt(Via, r, q).Some? {
          ViaInPrefix(s, p, q);
        }
      }
  }

  // ---------------------------------------------------------------------
  // The pass chains

  /** The `CleanUtils` steps that end every headsign: remove points, street
      types, numbers, then the label clean-up. */
  function FinishLabel(cu: CleanUtils, s: string): string {
    cu.cleanLabel(cu.cleanNumbers(cu.cleanStreetTypes(cu.removePoints(s))))
  }

  /** The local passes of the older `cleanTripHeadsign`, in source order. */
  function OlderLocalPasses(s: string): string {
    var trimmed := TrimToVia(s);
    var exchanged := AbbreviateExchange(trimmed);
    var anded := AmpersandForAnd(exchanged);
    var spacedOpen := SpaceBeforeParen(anded);
    var closed := SpaceAfterParen(spacedOpen);
    RemoveSpecial(AnchoredPasses(closed))
  }

  /** A word-bounded pattern finds nothing in a single word of letters that is
      none of its words. */
  lemma PlainWordHasNoBoundedMatch(s: string, words: seq<Word>)
    requires PlainWord(s) && forall k | 0 <= k < |words| :: !CiEq(s, words[k])
    ensures forall q | 0 <= q <= |s| :: MatchAt(Bounded(words), s, q).None?
  {
    forall q | 0 <= q <= |s| ensures MatchAt(Bounded(words), s, q).None? {
      BoundedOnWordChars(words, s, q);
    }
  }

  /** Nor do " and " and the padded parentheses, which need a space or a
      parenthesis. */
  lemma PlainWordHasNoPunctuationMatch(s: string)
    requires PlainWord(s)
    ensures forall q | 0 <= q <= |s| :: MatchAt(And, s, q).None?
    ensures forall q | 0 <= q <= |s| :: MatchAt(CleanP1, s, q).None? && MatchAt(CleanP2, s, q).None?
  {
    forall q | 0 <= q <= |s| ensures MatchAt(And, s, q).None? {
      if q + 5 <= |s| {
        assert s[q..q + 5][0] == s[q];
      }
    }
  }

  /** A one-word headsign of ASCII letters goes through the older local passes
      unchanged, unless it is one of the words those passes look for. */
  lemma OlderLocalPassesKeepPlainWord(s: string)
    requires PlainWord(s)
    requires !CiEq(s, "to") && !CiEq(s, "via") && !CiEq(s, "exchange") && !CiEq(s, "ex") && !CiEq(s, "special")
    ensures OlderLocalPasses(s) == s
  {
    PlainWordHasNoBoundedMatch(s, ["to"]);
    PlainWordHasNoBoundedMatch(s, ["via"]);
    TrimToViaWithoutWords(s);
    PlainWordHasNoBoundedMatch(s, ["exchange", "ex"]);
    ReplaceWithoutMatch(Exchange, ExchangeReplacement, s);
    PlainWordHasNoPunctuationMatch(s);
    ReplaceWithoutMatch(And, AndReplacement, s);
    ReplaceWithoutMatch(CleanP1, CleanP1Replacement, s);
    ReplaceWithoutMatch(CleanP2, CleanP2Replacement, s);
    assert AnchoredPasses(s) == s;
    PlainWordHasNoBoundedMatch(s, ["special"]);
    ReplaceWithoutMatch(Special, Delete, s);
  }

  /** The older `cleanTripHeadsign`. */
  function OlderCleanTripHeadsign(cu: CleanUtils, s: string): string {
    FinishLabel(cu, OlderLocalPasses(s))
  }

  /** The local passes of the newer `cleanTripHeadsign`, with the to/via step and
      the "and" step handed to `CleanUtils`. */
  function NewerLocalPasses(cu: CleanUtils, s: string): string {
    var exchanged := AbbreviateExchange(cu.keepToAndRemoveVia(s));
    RemoveSpecial(AnchoredPasses(cu.cleanAnd(exchanged)))
  }

  /** The newer `cleanTripHeadsign`. */
  function NewerCleanTripHeadsign(cu: CleanUtils, s: string): string {
    FinishLabel(cu, NewerLocalPasses(cu, s))
  }

  /** A one-word headsign of ASCII letters goes through the newer local passes
      unchanged when the `CleanUtils` to/via and "and" steps leave it alone,
      unless it is one of the words the local passes look for. */
  lemma NewerLocalPassesKeepPlainWord(cu: CleanUtils, s: string)
    requires PlainWord(s) && cu.keepToAndRemoveVia(s) == s && cu.cleanAnd(s) == s
    requires !CiEq(s, "exchange") && !CiEq(s, "ex") && !CiEq(s, "special")
    ensures NewerCleanTripHeadsign(cu, s) == FinishLabel(cu, s)
  {
    PlainWordHasNoBoundedMatch(s, ["exchange", "ex"]);
    ReplaceWithoutMatch(Exchange, ExchangeReplacement, s);
    PlainWordHasNoBoundedMatch(s, ["special"]);
    assert AnchoredPasses(s) == s;
    ReplaceWithoutMatch(Special, Delete, s);
  }

  /** `cleanStopName`, the same in both files. */
  function CleanStopName(cu: CleanUtils, s: string): string {
    var local := AbbreviateExchange(cu.cleanAt(StripBound(StripImpl(s))));
    cu.cleanLabel(cu.cleanNumbers(cu.cleanStreetTypes(local)))
  }

  /** A stop name that starts with "(-IMPL-)" and then a compass point and
      "bound" loses both prefixes before the rest is cleaned. */
  lemma CleanStopNameDropsPrefixes(cu: CleanUtils, impl: string, d: string, bound: string, rest: string)
    requires CiEq(impl, "(-IMPL-)") && d in ["east", "west", "north", "south"] && CiEq(bound, d + "bound")
    ensures CleanStopName(cu, impl + bound + rest)
         == cu.cleanLabel(cu.cleanNumbers(cu.cleanStreetTypes(AbbreviateExchange(cu.cleanAt(rest)))))
  {
    var s := impl + bound + rest;
    assert s[..8] == impl;
    var t := StripImpl(s);
    assert t == bound + rest;
    assert t[..|d| + 5] == bound;
    assert BoundPrefix(t, d);
    assert StripBound(t) == rest;
  }
}
