# Kelowna Regional Transit System bus agency tools, modelled in Dafny

The agency tools turn the records of a GTFS feed (routes, trips, stops) into
display data for one bus network. The repository has two snapshots of the
class `KelownaRegionalTransitSystemBusAgencyTools`. This project models both:

- the older one under `src/org/...`;
- the newer one under `src/main/java/...`.

Most of the class is static decision tables. The model keeps the tables as
data, runs them through one shared engine, and proves what each table makes
the engine do.

Modules, in dependency order:

- `Wrappers` (`wrappers.dfy`): `Option` (also a Java reference that may be
  null), `Result` (`Fatal` is `System.exit(-1)` or an uncaught
  `NumberFormatException`), and `Status` for void methods that may exit.
- `JavaText` (`java_text.dfy`): the Java text behaviour the tools rely on:
  - the ASCII classes `\d`, `\w` and `\s`, and the line terminators;
  - the ASCII folding of a `CASE_INSENSITIVE` pattern, and the folding of
    `String.equalsIgnoreCase`;
  - `StringUtils.isEmpty`;
  - `Integer.parseInt` / `Long.parseLong`, with a round-trip lemma.
- `Regex` (`regex.dfy`): the seven pattern shapes the class compiles, matched
  by hand in the Java engine's backtracking order. Also `Matcher.find()` as
  the leftmost match, and `Matcher.replaceAll` as a left-to-right scan without
  overlaps. Lemmas cover the no-match, single-match, anchored and trailing
  cases.
- `Cleaning` (`cleaning.dfy`):
  - the local passes of `cleanTripHeadsign` and `cleanStopName`: anchored
    trims, word-bounded replacements, and the to/via trimming of the older
    file;
  - the order in which each snapshot chains them.

  The `CleanUtils` helpers are a record of opaque functions.
- `Directions` (`directions.dfy`) and `Trips` (`trips.dfy`):
  - the direction tags and which pairs are opposite;
  - `MTrip` as a class, whose headsign value and direction are fields changed
    by `SetHeadsignString`.
- `Resolver` (`resolver.dfy`): the engine behind `setTripHeadsign` and
  `mergeHeadsign`:
  - headsign rules are keyed by route, then by direction flag, and each
    branch has an explicit comparison mode: `equalsIgnoreCase` or exact list
    membership;
  - merge rules are an ordered list per route, and the first rule covering
    both labels wins;
  - the two imperative methods change the `MTrip` argument exactly as the
    decision functions say, or exit leaving it untouched.
- `RouteTrips` (`route_trips.dfy`):
  - the waypoint specs of `ALL_ROUTE_TRIPS2` as data;
  - the `containsKey` dispatch shared by `compareEarly`, `splitTrip`,
    `splitTripStop` and `setTripHeadsign`.
- `RouteInfo` (`route_info.dfy`): `getRouteId`, `getStopId`,
  `getRouteLongName` and the `getRouteColor` switch. These are the same in
  both snapshots.
- `OlderTools` (`older_tools.dfy`) and `NewerTools` (`newer_tools.dfy`):
  - each snapshot's override set, its waypoint map built by the static
    initialiser, its headsign rules and its merge rules;
  - lemmas that pin down the behaviour the tables promise.

External inputs are parameters rather than code:

- the `CleanUtils` functions and the `CLEAN_AND` / `CLEAN_AT` replacements;
- the result of `isGoodEnoughAccepted()`;
- what the default (`super`) implementation returns.

Two snapshot differences the model keeps apart:

- The newer `cleanTripHeadsign` hands the to/via step to
  `CleanUtils.keepToAndRemoveVia`; the older one does it with its own `TO`
  and `VIA` patterns. The newer one also drops the parenthesis passes.
- The newer route 88 rule is the only one with a fixed label in good-enough
  mode.

## Model

| member | source | states |
|---|---|---|
| JavaText.ParseDecimal | src/org/mtransit/parser/ca_kelowna_regional_transit_system_bus/KelownaRegionalTransitSystemBusAgencyTools.java:112-114 | parsing succeeds exactly on an optional sign followed by ASCII digits whose value lies in the requested range, and then gives that value; null, empty, malformed or out-of-range text is `None` (the `NumberFormatException`) |
| JavaText.ParseDecimalRoundTrip | src/org/mtransit/parser/ca_kelowna_regional_transit_system_bus/KelownaRegionalTransitSystemBusAgencyTools.java:112-114 | parsing the decimal text of any number in range gives the number back |
| JavaText.CiEqIsEqualsIgnoreCase | src/org/mtransit/parser/ca_kelowna_regional_transit_system_bus/KelownaRegionalTransitSystemBusAgencyTools.java:806 | a match of a case-insensitive pattern literal is also an `equalsIgnoreCase` match |
| Regex.MatchAt | src/org/mtransit/parser/ca_kelowna_regional_transit_system_bus/KelownaRegionalTransitSystemBusAgencyTools.java:806-826 | a match of one of the compiled patterns starts at the probed position and stays within the input |
| Regex.FindFrom | src/org/mtransit/parser/ca_kelowna_regional_transit_system_bus/KelownaRegionalTransitSystemBusAgencyTools.java:830-839 | `Matcher.find()`: the leftmost position with a match, with no match at any earlier position; `None` only when no position matches |
| Regex.Find | src/org/mtransit/parser/ca_kelowna_regional_transit_system_bus/KelownaRegionalTransitSystemBusAgencyTools.java:830-839 | `p.matcher(s).find()` on a pattern: the first position where the pattern matches, and `None` only when it matches nowhere |
| Regex.ReplaceCopiesPlainText | src/org/mtransit/parser/ca_kelowna_regional_transit_system_bus/KelownaRegionalTransitSystemBusAgencyTools.java:840-847 | `replaceAll` copies unchanged every character where no match starts |
| Regex.ReplaceWithoutMatch | src/org/mtransit/parser/ca_kelowna_regional_transit_system_bus/KelownaRegionalTransitSystemBusAgencyTools.java:840-847 | without any match, `replaceAll` returns its input |
| Regex.ReplaceSingleMatch | src/org/mtransit/parser/ca_kelowna_regional_transit_system_bus/KelownaRegionalTransitSystemBusAgencyTools.java:840-847 | with one match and none before it or after the text it consumes, `replaceAll` replaces that match and copies the rest |
| Regex.ReplaceAnchored | src/org/mtransit/parser/ca_kelowna_regional_transit_system_bus/KelownaRegionalTransitSystemBusAgencyTools.java:809-811 | a `^`-anchored pattern is replaced at most once, at the start of the input |
| Regex.TrailingMatchUnique | src/org/mtransit/parser/ca_kelowna_regional_transit_system_bus/KelownaRegionalTransitSystemBusAgencyTools.java:824 | the `ENDS_WITH_EXPRESS` shape matches at one position at most |
| Regex.ReplaceTrailing | src/org/mtransit/parser/ca_kelowna_regional_transit_system_bus/KelownaRegionalTransitSystemBusAgencyTools.java:824 | so it is replaced at most once: the prefix before the match and the text after it are kept |
| Regex.BoundedOnWordChars | src/org/mtransit/parser/ca_kelowna_regional_transit_system_bus/KelownaRegionalTransitSystemBusAgencyTools.java:806 | on a string of word characters only, a word-bounded pattern matches only when the whole string is one of its words |
| Cleaning.StripLeadingNumber | src/org/mtransit/parser/ca_kelowna_regional_transit_system_bus/KelownaRegionalTransitSystemBusAgencyTools.java:844 | a leading token that starts with a digit is removed up to the first white space; otherwise the text is kept; the result never starts with a digit |
| Cleaning.StripLeadingNumberIdempotent | src/main/java/org/mtransit/parser/ca_kelowna_regional_transit_system_bus/KelownaRegionalTransitSystemBusAgencyTools.java:807 | removing the leading number a second time changes nothing |
| Cleaning.LastDashInFirstLine | src/org/mtransit/parser/ca_kelowna_regional_transit_system_bus/KelownaRegionalTransitSystemBusAgencyTools.java:811 | the `" - "` that greedy `^.* - ` ends on is the last one lying wholly in the first line |
| Cleaning.StripDashPrefix | src/org/mtransit/parser/ca_kelowna_regional_transit_system_bus/KelownaRegionalTransitSystemBusAgencyTools.java:845 | everything up to and including that last `" - "` is removed; without one the text is kept |
| Cleaning.FirstLineOfSuffix | src/org/mtransit/parser/ca_kelowna_regional_transit_system_bus/KelownaRegionalTransitSystemBusAgencyTools.java:811 | cutting a prefix inside the first line shortens the first line by that much |
| Cleaning.StripDashPrefixIdempotent | src/main/java/org/mtransit/parser/ca_kelowna_regional_transit_system_bus/KelownaRegionalTransitSystemBusAgencyTools.java:808 | after the pass no `" - "` is left in the first line, so a second pass changes nothing |
| Cleaning.StripTrailingExpress | src/org/mtransit/parser/ca_kelowna_regional_transit_system_bus/KelownaRegionalTransitSystemBusAgencyTools.java:846 | a final non-word character plus "express" (any case, before the end or a final line terminator) is removed, and nothing else; otherwise the text is kept |
| Cleaning.StripTrailingExpressCases | src/main/java/org/mtransit/parser/ca_kelowna_regional_transit_system_bus/KelownaRegionalTransitSystemBusAgencyTools.java:809 | the `ENDS_WITH_EXPRESS` match positions are exactly those of the "express" suffix |
| Cleaning.StripImpl | src/org/mtransit/parser/ca_kelowna_regional_transit_system_bus/KelownaRegionalTransitSystemBusAgencyTools.java:854 | a leading "(-IMPL-)" in any case is removed; otherwise the text is kept |
| Cleaning.StripBound | src/org/mtransit/parser/ca_kelowna_regional_transit_system_bus/KelownaRegionalTransitSystemBusAgencyTools.java:855 | a leading "eastbound", "westbound", "northbound" or "southbound" in any case is removed; otherwise the text is kept |
| Cleaning.StripBoundCases | src/main/java/org/mtransit/parser/ca_kelowna_regional_transit_system_bus/KelownaRegionalTransitSystemBusAgencyTools.java:818 | the `STARTS_WITH_BOUND` replacement removes exactly the compass prefix that is present |
| Cleaning.RemoveSpecialAlone | src/org/mtransit/parser/ca_kelowna_regional_transit_system_bus/KelownaRegionalTransitSystemBusAgencyTools.java:826 | a headsign that is only "special", in any case, becomes empty |
| Cleaning.ExchangeWordChars | src/org/mtransit/parser/ca_kelowna_regional_transit_system_bus/KelownaRegionalTransitSystemBusAgencyTools.java:806 | the words "exchange" and "ex" consist of word characters in any casing |
| Cleaning.AbbreviateExchange | src/org/mtransit/parser/ca_kelowna_regional_transit_system_bus/KelownaRegionalTransitSystemBusAgencyTools.java:840 | `EXCHANGE` replaced by "$2Exch$4"; no contract of its own: `AbbreviateExchangeWithoutEx` (no "ex", no change), `AbbreviateSingleExchange` (the one match, anywhere in the text, becomes "Exch" with its boundaries kept) and `AdjacentExchangeKept` (a word right after a match is not matched) state what it does |
| Cleaning.BoundedHitInPrefix | src/org/mtransit/parser/ca_kelowna_regional_transit_system_bus/KelownaRegionalTransitSystemBusAgencyTools.java:806 | a match of a word-bounded pattern of letter words that starts before a non-word character is already a match of the text up to that character |
| Cleaning.LetterWordFound | src/org/mtransit/parser/ca_kelowna_regional_transit_system_bus/KelownaRegionalTransitSystemBusAgencyTools.java:806 | a listed word of letters written in any case and followed by a boundary is the word the alternation `(exchange|ex)` settles on, with that boundary as the end of the match |
| Cleaning.WordFoundBetween | src/org/mtransit/parser/ca_kelowna_regional_transit_system_bus/KelownaRegionalTransitSystemBusAgencyTools.java:806 | so the word standing between two boundaries is found right after the text before it |
| Cleaning.BoundedHitBetween | src/org/mtransit/parser/ca_kelowna_regional_transit_system_bus/KelownaRegionalTransitSystemBusAgencyTools.java:806 | a listed word between two boundaries is matched from the boundary before it (or from the start of the text) through the boundary after it (or the end of input) |
| Cleaning.BoundedNoHitInLead | src/org/mtransit/parser/ca_kelowna_regional_transit_system_bus/KelownaRegionalTransitSystemBusAgencyTools.java:806 | before the boundary that ends a text, the pattern finds in any continuation of it only what it finds in that text |
| Cleaning.WordAtSuffix | src/org/mtransit/parser/ca_kelowna_regional_transit_system_bus/KelownaRegionalTransitSystemBusAgencyTools.java:806 | the word alternation looks only at the text from its position on |
| Cleaning.BoundedHitInside | src/org/mtransit/parser/ca_kelowna_regional_transit_system_bus/KelownaRegionalTransitSystemBusAgencyTools.java:806 | a match that does not start at 0 starts at a non-word character followed by a listed word |
| Cleaning.BoundedHitInSuffix | src/org/mtransit/parser/ca_kelowna_regional_transit_system_bus/KelownaRegionalTransitSystemBusAgencyTools.java:806 | a match past the first character of a suffix is a match of that suffix at the same place |
| Cleaning.BoundedNoHitInTail | src/org/mtransit/parser/ca_kelowna_regional_transit_system_bus/KelownaRegionalTransitSystemBusAgencyTools.java:806 | past the first character of a tail, the pattern finds in `head + tail` only what it finds in the tail |
| Cleaning.BoundedSingleMatch | src/org/mtransit/parser/ca_kelowna_regional_transit_system_bus/KelownaRegionalTransitSystemBusAgencyTools.java:806 | a listed word between two boundaries, with no other match before it and none in the text after it, is the one match `replaceAll` replaces, boundaries included |
| Cleaning.KeptBounds | src/org/mtransit/parser/ca_kelowna_regional_transit_system_bus/KelownaRegionalTransitSystemBusAgencyTools.java:807 | the pieces of a `$2...$4` replacement put back around the new middle give the text with only the word replaced |
| Cleaning.BoundedSingleKeep | src/org/mtransit/parser/ca_kelowna_regional_transit_system_bus/KelownaRegionalTransitSystemBusAgencyTools.java:806-807 | so with `$2...$4` the single match keeps its boundary characters around the new middle |
| Cleaning.DroppedBounds | src/org/mtransit/parser/ca_kelowna_regional_transit_system_bus/KelownaRegionalTransitSystemBusAgencyTools.java:847 | removing a match takes the boundary character before the word (if any) and the one after it (if any) |
| Cleaning.BoundedSingleDelete | src/org/mtransit/parser/ca_kelowna_regional_transit_system_bus/KelownaRegionalTransitSystemBusAgencyTools.java:826 | so with the empty replacement the single match is removed together with its boundary characters |
| Cleaning.AbbreviateSingleExchange | src/org/mtransit/parser/ca_kelowna_regional_transit_system_bus/KelownaRegionalTransitSystemBusAgencyTools.java:840 | a standalone "Exchange" or "Ex" in any case that is the only match becomes "Exch" wherever it stands (start, middle or end), the boundary characters around it kept: "Queensway Exchange Bay E" becomes "Queensway Exch Bay E" |
| Cleaning.AdjacentExchangeKept | src/org/mtransit/parser/ca_kelowna_regional_transit_system_bus/KelownaRegionalTransitSystemBusAgencyTools.java:806-807 | a match consumes the boundary after its word, so "Ex Ex" becomes "Exch Ex": the second word is never matched |
| Cleaning.RemoveSingleSpecial | src/org/mtransit/parser/ca_kelowna_regional_transit_system_bus/KelownaRegionalTransitSystemBusAgencyTools.java:847 | a standalone "special" in any case that is the only match is removed together with the boundary characters before and after it |
| Cleaning.RemoveTrailingSpecial | src/main/java/org/mtransit/parser/ca_kelowna_regional_transit_system_bus/KelownaRegionalTransitSystemBusAgencyTools.java:810 | a name in which `SPECIAL` finds nothing, followed by " Special" (optional final period), is left as the bare name: "Boucherie Mtn Special" becomes "Boucherie Mtn" |
| Cleaning.RemoveMidSpecial | src/org/mtransit/parser/ca_kelowna_regional_transit_system_bus/KelownaRegionalTransitSystemBusAgencyTools.java:847 | in mid-text both boundary characters go with the word: "Route Special Service" becomes "RouteService" |
| Cleaning.BoundedWithoutInfix | src/org/mtransit/parser/ca_kelowna_regional_transit_system_bus/KelownaRegionalTransitSystemBusAgencyTools.java:806 | a word-bounded pattern finds nothing in a text that contains none of its words (their first `n` characters, in any case) |
| Cleaning.AbbreviateExchangeWithoutEx | src/org/mtransit/parser/ca_kelowna_regional_transit_system_bus/KelownaRegionalTransitSystemBusAgencyTools.java:840 | a headsign with no "ex" in any case is left unchanged by the `EXCHANGE` pass |
| Cleaning.RemoveSpecial | src/org/mtransit/parser/ca_kelowna_regional_transit_system_bus/KelownaRegionalTransitSystemBusAgencyTools.java:847 | `SPECIAL` replaced by the empty string; no contract of its own: `RemoveSpecialWithoutSpecial` (no "special", no change), `RemoveSingleSpecial` (the one match goes together with both boundary characters), `RemoveTrailingSpecial`, `RemoveMidSpecial` and `RemoveSpecialAlone` state what it does |
| Cleaning.RemoveSpecialWithoutSpecial | src/org/mtransit/parser/ca_kelowna_regional_transit_system_bus/KelownaRegionalTransitSystemBusAgencyTools.java:847 | a headsign with no "special" in any case is left unchanged by the `SPECIAL` pass |
| Cleaning.AmpersandForAnd | src/org/mtransit/parser/ca_kelowna_regional_transit_system_bus/KelownaRegionalTransitSystemBusAgencyTools.java:841 | `AND` replaced by " & "; no contract of its own: the two lemmas below state what it does |
| Cleaning.AmpersandForAndWithoutAnd | src/org/mtransit/parser/ca_kelowna_regional_transit_system_bus/KelownaRegionalTransitSystemBusAgencyTools.java:816-817 | a headsign with no " and " in any case is left unchanged |
| Cleaning.AmpersandForSingleAnd | src/org/mtransit/parser/ca_kelowna_regional_transit_system_bus/KelownaRegionalTransitSystemBusAgencyTools.java:816-817 | a word without spaces, one " and " in any case, then a text without " and " becomes the same text with " & " in its place |
| Cleaning.SpaceBeforeParen | src/org/mtransit/parser/ca_kelowna_regional_transit_system_bus/KelownaRegionalTransitSystemBusAgencyTools.java:842 | `CLEAN_P1` replaced by " ("; no contract of its own: the lemmas below state what it does |
| Cleaning.SpaceAfterParen | src/org/mtransit/parser/ca_kelowna_regional_transit_system_bus/KelownaRegionalTransitSystemBusAgencyTools.java:843 | `CLEAN_P2` replaced by ") "; no contract of its own: the lemmas below state what it does |
| Cleaning.PaddedSingle | src/org/mtransit/parser/ca_kelowna_regional_transit_system_bus/KelownaRegionalTransitSystemBusAgencyTools.java:819-822 | a character padded by white space that occurs once, between texts that do not touch it with white space, is replaced once with its padding |
| Cleaning.SpaceBeforeSingleParen | src/org/mtransit/parser/ca_kelowna_regional_transit_system_bus/KelownaRegionalTransitSystemBusAgencyTools.java:819-820 | the white space around the only opening parenthesis becomes exactly one space before it, and nothing else changes |
| Cleaning.SpaceAfterSingleParen | src/org/mtransit/parser/ca_kelowna_regional_transit_system_bus/KelownaRegionalTransitSystemBusAgencyTools.java:821-822 | the white space around the only closing parenthesis becomes exactly one space after it, and nothing else changes |
| Cleaning.SpaceBeforeParenWithoutParen | src/org/mtransit/parser/ca_kelowna_regional_transit_system_bus/KelownaRegionalTransitSystemBusAgencyTools.java:842 | a headsign with no opening parenthesis is left unchanged |
| Cleaning.SpaceAfterParenWithoutParen | src/org/mtransit/parser/ca_kelowna_regional_transit_system_bus/KelownaRegionalTransitSystemBusAgencyTools.java:843 | a headsign with no closing parenthesis is left unchanged |
| Cleaning.AbbreviateTrailingExchange | src/main/java/org/mtransit/parser/ca_kelowna_regional_transit_system_bus/KelownaRegionalTransitSystemBusAgencyTools.java:805 | any name, of one word or several, in which `EXCHANGE` finds nothing, followed by a standalone "Exchange" or "Ex" (any case, optional final period), ends in "Exch" with the name and the period kept |
| Cleaning.KeepAfterTo | src/org/mtransit/parser/ca_kelowna_regional_transit_system_bus/KelownaRegionalTransitSystemBusAgencyTools.java:830-834 | after a standalone "to" (case-insensitive, bounded by the start or a non-word character) only the text after the match is kept; without one the text is kept |
| Cleaning.CutBeforeVia | src/org/mtransit/parser/ca_kelowna_regional_transit_system_bus/KelownaRegionalTransitSystemBusAgencyTools.java:835-839 | only the text before the first standalone "via" is kept; without one the text is kept |
| Cleaning.TrimToVia | src/org/mtransit/parser/ca_kelowna_regional_transit_system_bus/KelownaRegionalTransitSystemBusAgencyTools.java:830-839 | the to/via step of the older file; no contract of its own: `TrimToViaWithoutWords`, `TrimToViaIsInfix` and `CutBeforeViaLeavesNoVia` state what it does |
| Cleaning.TrimToViaWithoutWords | src/org/mtransit/parser/ca_kelowna_regional_transit_system_bus/KelownaRegionalTransitSystemBusAgencyTools.java:830-839 | with neither word present, the to/via step leaves the headsign unchanged |
| Cleaning.TrimToViaIsInfix | src/org/mtransit/parser/ca_kelowna_regional_transit_system_bus/KelownaRegionalTransitSystemBusAgencyTools.java:830-839 | the trimmed headsign is a contiguous piece of the original |
| Cleaning.WordAtInPrefix | src/org/mtransit/parser/ca_kelowna_regional_transit_system_bus/KelownaRegionalTransitSystemBusAgencyTools.java:835-839 | a word match inside a prefix that ends at a non-word character is a match in the whole text |
| Cleaning.BoundedHitFromPrefix | src/org/mtransit/parser/ca_kelowna_regional_transit_system_bus/KelownaRegionalTransitSystemBusAgencyTools.java:835-839 | a word-bounded match inside a prefix that ends at a non-word character is a match of the whole text as well |
| Cleaning.ViaInPrefix | src/org/mtransit/parser/ca_kelowna_regional_transit_system_bus/KelownaRegionalTransitSystemBusAgencyTools.java:835-839 | a standalone "via" inside a prefix that ends at a non-word character is a standalone "via" of the whole headsign |
| Cleaning.CutBeforeViaLeavesNoVia | src/org/mtransit/parser/ca_kelowna_regional_transit_system_bus/KelownaRegionalTransitSystemBusAgencyTools.java:835-839 | after the cut no standalone "via" is left |
| Cleaning.OlderCleanTripHeadsign | src/org/mtransit/parser/ca_kelowna_regional_transit_system_bus/KelownaRegionalTransitSystemBusAgencyTools.java:829-852 | the older `cleanTripHeadsign` as the composition of its passes; no contract of its own: the lemmas on each pass and `OlderLocalPassesKeepPlainWord` state what it does |
| Cleaning.OlderLocalPassesKeepPlainWord | src/org/mtransit/parser/ca_kelowna_regional_transit_system_bus/KelownaRegionalTransitSystemBusAgencyTools.java:829-852 | a one-word headsign of letters that is none of the searched words goes through the local passes unchanged, so `cleanTripHeadsign` reduces to the `CleanUtils` steps |
| Cleaning.NewerCleanTripHeadsign | src/main/java/org/mtransit/parser/ca_kelowna_regional_transit_system_bus/KelownaRegionalTransitSystemBusAgencyTools.java:803-815 | the newer `cleanTripHeadsign` as the composition of its passes; no contract of its own: `NewerLocalPassesKeepPlainWord` and the lemmas on each pass state what it does |
| Cleaning.NewerLocalPassesKeepPlainWord | src/main/java/org/mtransit/parser/ca_kelowna_regional_transit_system_bus/KelownaRegionalTransitSystemBusAgencyTools.java:803-815 | the same for the newer chain when the `CleanUtils` to/via and "and" steps leave the word alone |
| Cleaning.CleanStopName | src/org/mtransit/parser/ca_kelowna_regional_transit_system_bus/KelownaRegionalTransitSystemBusAgencyTools.java:858-866 | `cleanStopName` as the composition of its passes; no contract of its own: `CleanStopNameDropsPrefixes`, `StripBoundCases` and the exchange lemmas state what it does |
| Cleaning.CleanStopNameDropsPrefixes | src/org/mtransit/parser/ca_kelowna_regional_transit_system_bus/KelownaRegionalTransitSystemBusAgencyTools.java:858-866 | a stop name that starts with "(-IMPL-)" and a compass "…bound" loses both before the at/exchange passes and the `CleanUtils` steps |
| Trips.MTrip.SetHeadsignString | src/org/mtransit/parser/ca_kelowna_regional_transit_system_bus/KelownaRegionalTransitSystemBusAgencyTools.java:736 | `setHeadsignString(value, id)` sets the label and the direction |
| Resolver.AcceptsIgnoringCase | src/org/mtransit/parser/ca_kelowna_regional_transit_system_bus/KelownaRegionalTransitSystemBusAgencyTools.java:539-541 | an `equalsIgnoreCase` rule accepts a headsign that equals one of its literals ignoring case |
| Resolver.BranchFor | src/org/mtransit/parser/ca_kelowna_regional_transit_system_bus/KelownaRegionalTransitSystemBusAgencyTools.java:538-554 | only direction flags 0 and 1 have a branch |
| Resolver.LabelFor | src/main/java/org/mtransit/parser/ca_kelowna_regional_transit_system_bus/KelownaRegionalTransitSystemBusAgencyTools.java:659-670 | the label is the cleaned headsign, except that a good-enough rule in good-enough mode uses its fixed label |
| Resolver.Resolve | src/org/mtransit/parser/ca_kelowna_regional_transit_system_bus/KelownaRegionalTransitSystemBusAgencyTools.java:533-722 | override routes are left to the split; otherwise a hit for the route, the flag and the comparison mode assigns the branch tag and label, and anything else is fatal; both directions of each case |
| Resolver.SetTripHeadsign | src/org/mtransit/parser/ca_kelowna_regional_transit_system_bus/KelownaRegionalTransitSystemBusAgencyTools.java:533-722 | the trip is changed exactly when `Resolve` assigns, and then gets that label and tag; an unexpected headsign ends the run and leaves the trip untouched |
| Resolver.FirstMerge | src/org/mtransit/parser/ca_kelowna_regional_transit_system_bus/KelownaRegionalTransitSystemBusAgencyTools.java:730-799 | a merge label exists exactly when some rule covers both labels, and it is the canonical label of the first covering rule |
| Resolver.FirstCoverAfterMiss | src/org/mtransit/parser/ca_kelowna_regional_transit_system_bus/KelownaRegionalTransitSystemBusAgencyTools.java:739-753 | when the first rule misses, the first covering rule of the rest is the first covering rule overall |
| Resolver.MergeDecision | src/org/mtransit/parser/ca_kelowna_regional_transit_system_bus/KelownaRegionalTransitSystemBusAgencyTools.java:730-804 | a route without merge rules never merges |
| Resolver.FirstMergeSymmetric | src/org/mtransit/parser/ca_kelowna_regional_transit_system_bus/KelownaRegionalTransitSystemBusAgencyTools.java:729 | the order of the two labels does not matter (`containsAll` of a two-element list) |
| Resolver.FirstMergeSelf | src/org/mtransit/parser/ca_kelowna_regional_transit_system_bus/KelownaRegionalTransitSystemBusAgencyTools.java:739-745 | a canonical label first covered by its own rule merges with itself into itself |
| Resolver.MergeHeadsign | src/org/mtransit/parser/ca_kelowna_regional_transit_system_bus/KelownaRegionalTransitSystemBusAgencyTools.java:725-804 | when one label is empty the non-empty one wins and the first trip keeps its direction; otherwise the first trip takes the first covering rule's label and keeps its direction, and an uncovered pair ends the run with the trip untouched |
| RouteTrips.Delegate | src/org/mtransit/parser/ca_kelowna_regional_transit_system_bus/KelownaRegionalTransitSystemBusAgencyTools.java:508-530 | `compareEarly`, `splitTrip` and `splitTripStop` defer to a spec exactly for the keys of `ALL_ROUTE_TRIPS2` |
| RouteTrips.DelegateAgreesWithResolve | src/org/mtransit/parser/ca_kelowna_regional_transit_system_bus/KelownaRegionalTransitSystemBusAgencyTools.java:509-536 | those three defer exactly when `setTripHeadsign` returns early, and the spec describes that very route |
| OlderTools.BuildRouteTrips | src/org/mtransit/parser/ca_kelowna_regional_transit_system_bus/KelownaRegionalTransitSystemBusAgencyTools.java:214-506 | the `put`s build exactly `ALL_ROUTE_TRIPS2`: every route's tags, labels and ordered waypoint stops as written; it holds exactly the 16 override routes, each keyed by its own id with two opposite tags, and every direction has a label and waypoints except the blank inbound side of route 88 |
| OlderTools.Decide | src/org/mtransit/parser/ca_kelowna_regional_transit_system_bus/KelownaRegionalTransitSystemBusAgencyTools.java:533-722 | override routes are exactly the split ones; an assignment always uses the cleaned headsign and needs a listed route and flag 0 or 1 |
| OlderTools.SetTripHeadsign | src/org/mtransit/parser/ca_kelowna_regional_transit_system_bus/KelownaRegionalTransitSystemBusAgencyTools.java:533-722 | the older `setTripHeadsign` changes the trip exactly as `Decide` says |
| OlderTools.MergeHeadsign | src/org/mtransit/parser/ca_kelowna_regional_transit_system_bus/KelownaRegionalTransitSystemBusAgencyTools.java:725-804 | the older `mergeHeadsign`: an empty label yields to the other, otherwise the trip takes the older merge rules' label or the run stops with the trip untouched |
| OlderTools.OverridesAndRulesDisjoint | src/org/mtransit/parser/ca_kelowna_regional_transit_system_bus/KelownaRegionalTransitSystemBusAgencyTools.java:533-536 | no listed route is also an override route, so no rule is dead |
| OlderTools.RuleTagsOpposite | src/org/mtransit/parser/ca_kelowna_regional_transit_system_bus/KelownaRegionalTransitSystemBusAgencyTools.java:537-718 | every listed route has both flags, mapped to the two tags of one convention |
| OlderTools.Route8FlagDecides | src/org/mtransit/parser/ca_kelowna_regional_transit_system_bus/KelownaRegionalTransitSystemBusAgencyTools.java:579-593 | "To Orchard Park" (any casing) on route 8 goes north with flag 0 and south with flag 1, with the cleaned label |
| OlderTools.Route5AnyCase | src/org/mtransit/parser/ca_kelowna_regional_transit_system_bus/KelownaRegionalTransitSystemBusAgencyTools.java:567-578 | route 5, flag 0 accepts "Downtown" in any casing and goes north |
| OlderTools.Route1SouthExact | src/org/mtransit/parser/ca_kelowna_regional_transit_system_bus/KelownaRegionalTransitSystemBusAgencyTools.java:545-550 | route 1, flag 1 accepts exactly its four listed headsigns, case-sensitively, and goes south |
| OlderTools.Route11Exact | src/org/mtransit/parser/ca_kelowna_regional_transit_system_bus/KelownaRegionalTransitSystemBusAgencyTools.java:606-626 | both flags of route 11 accept exactly their listed headsigns, case-sensitively |
| OlderTools.Route14NorthExact | src/org/mtransit/parser/ca_kelowna_regional_transit_system_bus/KelownaRegionalTransitSystemBusAgencyTools.java:641-649 | route 14, flag 0 accepts exactly its two listed headsigns |
| OlderTools.CasingsRefusedByList | src/org/mtransit/parser/ca_kelowna_regional_transit_system_bus/KelownaRegionalTransitSystemBusAgencyTools.java:606-613 | any casing of "To Orchard Park" other than the two listed ones is fatal on route 11 flag 0, though route 8 accepts every casing |
| OlderTools.UnlistedIsFatal | src/org/mtransit/parser/ca_kelowna_regional_transit_system_bus/KelownaRegionalTransitSystemBusAgencyTools.java:719-721 | an unlisted route, a flag other than 0 and 1, or a null headsign is fatal |
| OlderTools.Route7IsFatal | src/org/mtransit/parser/ca_kelowna_regional_transit_system_bus/KelownaRegionalTransitSystemBusAgencyTools.java:719-721 | every trip of route 7 is fatal |
| OlderTools.MergeStaysInSet | src/org/mtransit/parser/ca_kelowna_regional_transit_system_bus/KelownaRegionalTransitSystemBusAgencyTools.java:730-799 | each merge rule settles on one of its own members |
| OlderTools.Route8FirstRuleWins | src/org/mtransit/parser/ca_kelowna_regional_transit_system_bus/KelownaRegionalTransitSystemBusAgencyTools.java:739-753 | two "Orchard Pk" labels are covered by both route 8 rules and merge into "OK College", the first |
| OlderTools.Route1Merge | src/org/mtransit/parser/ca_kelowna_regional_transit_system_bus/KelownaRegionalTransitSystemBusAgencyTools.java:730-738 | "OK College" with "South Pandosy", in either order, merge into "Mission Rec Exch" |
| OlderTools.UncoveredPairs | src/org/mtransit/parser/ca_kelowna_regional_transit_system_bus/KelownaRegionalTransitSystemBusAgencyTools.java:739-803 | "OK College" with "UBCO" on route 8, and every pair on route 4, find no rule |
| OlderTools.RoutesWithoutColor | src/org/mtransit/parser/ca_kelowna_regional_transit_system_bus/KelownaRegionalTransitSystemBusAgencyTools.java:149-193 | of the routes the tables know, only 88 is missing from the color switch |
| NewerTools.BuildRouteTrips | src/main/java/org/mtransit/parser/ca_kelowna_regional_transit_system_bus/KelownaRegionalTransitSystemBusAgencyTools.java:215-365 | the `put`s build exactly `ALL_ROUTE_TRIPS2`: every route's tags, labels and ordered waypoint stops as written; it holds exactly routes {2,3,13,15,16,17,21,29,32}, each keyed by its own id with two opposite tags and complete directions |
| NewerTools.Decide | src/main/java/org/mtransit/parser/ca_kelowna_regional_transit_system_bus/KelownaRegionalTransitSystemBusAgencyTools.java:392-689 | exactly the override routes are split; an assignment needs a listed route and flag 0 or 1, and uses the cleaned headsign except on route 88 in good-enough mode |
| NewerTools.FixedLabelOnlyOnRoute88 | src/main/java/org/mtransit/parser/ca_kelowna_regional_transit_system_bus/KelownaRegionalTransitSystemBusAgencyTools.java:392-689 | every branch of every listed route labels the trip with the cleaned headsign, except the one branch of route 88, which falls back to "Boucherie Mtn" |
| NewerTools.SetTripHeadsign | src/main/java/org/mtransit/parser/ca_kelowna_regional_transit_system_bus/KelownaRegionalTransitSystemBusAgencyTools.java:392-689 | the newer `setTripHeadsign` changes the trip exactly as `Decide` says |
| NewerTools.MergeHeadsign | src/main/java/org/mtransit/parser/ca_kelowna_regional_transit_system_bus/KelownaRegionalTransitSystemBusAgencyTools.java:692-789 | the newer `mergeHeadsign`: an empty label yields to the other, otherwise the trip takes the newer merge rules' label or the run stops with the trip untouched |
| NewerTools.OverridesAndRulesDisjoint | src/main/java/org/mtransit/parser/ca_kelowna_regional_transit_system_bus/KelownaRegionalTransitSystemBusAgencyTools.java:392-395 | no listed route is also an override route |
| NewerTools.RuleTagsOpposite | src/main/java/org/mtransit/parser/ca_kelowna_regional_transit_system_bus/KelownaRegionalTransitSystemBusAgencyTools.java:396-685 | every listed route has a flag 1 branch, all but 88 a flag 0 branch, with opposite tags |
| NewerTools.Route88Special | src/main/java/org/mtransit/parser/ca_kelowna_regional_transit_system_bus/KelownaRegionalTransitSystemBusAgencyTools.java:659-670 | "Special" (any casing) with flag 1 goes outbound, labelled "Boucherie Mtn" in good-enough mode and with the cleaned headsign otherwise |
| NewerTools.Route88Flag0IsFatal | src/main/java/org/mtransit/parser/ca_kelowna_regional_transit_system_bus/KelownaRegionalTransitSystemBusAgencyTools.java:659-670 | route 88 with flag 0 is fatal |
| NewerTools.Route10WestExact | src/main/java/org/mtransit/parser/ca_kelowna_regional_transit_system_bus/KelownaRegionalTransitSystemBusAgencyTools.java:477-486 | route 10, flag 0 accepts exactly "North Rutland", "Downtown" or "To Orchard Park", case-sensitively, and goes west |
| NewerTools.Route10EastAnyCase | src/main/java/org/mtransit/parser/ca_kelowna_regional_transit_system_bus/KelownaRegionalTransitSystemBusAgencyTools.java:487-492 | route 10, flag 1 accepts exactly the casings of "North Rutland" and goes east |
| NewerTools.UnlistedIsFatal | src/main/java/org/mtransit/parser/ca_kelowna_regional_transit_system_bus/KelownaRegionalTransitSystemBusAgencyTools.java:686-688 | an unlisted route, a flag other than 0 and 1, or a null headsign is fatal |
| NewerTools.MergeStaysInSet | src/main/java/org/mtransit/parser/ca_kelowna_regional_transit_system_bus/KelownaRegionalTransitSystemBusAgencyTools.java:697-784 | each merge rule settles on one of its own members |
| NewerTools.Route12Merge | src/main/java/org/mtransit/parser/ca_kelowna_regional_transit_system_bus/KelownaRegionalTransitSystemBusAgencyTools.java:746-754 | any two of {Orchard Pk, OK College, South Pandosy} merge into "South Pandosy" |
| NewerTools.Route10Merge | src/main/java/org/mtransit/parser/ca_kelowna_regional_transit_system_bus/KelownaRegionalTransitSystemBusAgencyTools.java:721-729 | any two of {North Rutland, Orchard Pk, Downtown} merge into "Downtown" |
| NewerTools.Route23Merge | src/main/java/org/mtransit/parser/ca_kelowna_regional_transit_system_bus/KelownaRegionalTransitSystemBusAgencyTools.java:755-769 | "Old Vernon Rd" merges into "Lk Country" or "UBCO", while "Lk Country" with "UBCO" finds no rule |
| NewerTools.RoutesWithoutColor | src/main/java/org/mtransit/parser/ca_kelowna_regional_transit_system_bus/KelownaRegionalTransitSystemBusAgencyTools.java:153-197 | of the routes the tables know, only 26 and 88 are missing from the color switch |
| RouteInfo.RouteId | src/main/java/org/mtransit/parser/ca_kelowna_regional_transit_system_bus/KelownaRegionalTransitSystemBusAgencyTools.java:116-118 | `Long.parseLong` of the short name: the id is its decimal value in the long range, and null or malformed names are fatal |
| RouteInfo.StopId | src/main/java/org/mtransit/parser/ca_kelowna_regional_transit_system_bus/KelownaRegionalTransitSystemBusAgencyTools.java:832-834 | `Integer.parseInt` of the stop code, in the int range, fatal otherwise |
| RouteInfo.RouteIdRoundTrip | src/org/mtransit/parser/ca_kelowna_regional_transit_system_bus/KelownaRegionalTransitSystemBusAgencyTools.java:112-114 | a short name that is the decimal text of a long gives that number back |
| RouteInfo.StopIdRoundTrip | src/org/mtransit/parser/ca_kelowna_regional_transit_system_bus/KelownaRegionalTransitSystemBusAgencyTools.java:869-871 | a stop code that is the decimal text of an int gives that number back |
| RouteInfo.CleanLongName | src/org/mtransit/parser/ca_kelowna_regional_transit_system_bus/KelownaRegionalTransitSystemBusAgencyTools.java:127-130 | the cleaning chain of `getRouteLongName`; no contract of its own, `RouteLongName` states where it is applied |
| RouteInfo.RouteLongName | src/main/java/org/mtransit/parser/ca_kelowna_regional_transit_system_bus/KelownaRegionalTransitSystemBusAgencyTools.java:121-135 | the long name when not empty, else the description, through the cleaning chain; fatal exactly when both are empty |
| RouteInfo.SwitchColorGroups | src/org/mtransit/parser/ca_kelowna_regional_transit_system_bus/KelownaRegionalTransitSystemBusAgencyTools.java:149-193 | the switch gives "3FA0D6", "7B9597" or "F17C15" exactly for the routes of the matching group, and nothing for any other route |
| RouteInfo.SwitchColor | src/org/mtransit/parser/ca_kelowna_regional_transit_system_bus/KelownaRegionalTransitSystemBusAgencyTools.java:149-193 | the color switch on the route number; no contract of its own: `SwitchColorGroups` and `RouteColorByNumber` state which numbers get which color |
| RouteInfo.RouteColor | src/org/mtransit/parser/ca_kelowna_regional_transit_system_bus/KelownaRegionalTransitSystemBusAgencyTools.java:149-193 | a feed color defers to the default; without one the result is a color exactly when the short name parses as an int (leading zeros and a sign included) and the switch lists that number, and then it is the switch's color; a malformed name or an unlisted number is fatal |
| RouteInfo.RouteColorByNumber | src/main/java/org/mtransit/parser/ca_kelowna_regional_transit_system_bus/KelownaRegionalTransitSystemBusAgencyTools.java:153-197 | with no feed color, a numbered route gets its group's color and any other number (26 and 88 among them) is fatal |

## Left out

- `main`, `start`, `setupNext`, the `isNext` field, the timing and the `printf` output: process plumbing. Each `System.exit(-1)` is the `Fatal` result or the `Exit` status.
- `excludingAll`, `excludeCalendar`, `excludeCalendarDate`, `excludeTrip` and `extractUsefulServiceIds`: they delegate to `DefaultAgencyTools` helpers that are not part of this model.
- `excludeRoute` of the older snapshot (an agency id other than "1" is excluded): left with the other exclusion filters.
- `getAgencyRouteType` and `getAgencyColor`: constant getters.
- `SplitUtils.RouteTripSpec` (`compare`, `getAllTrips`, `compileBothTripSort`) and `SplitUtils.splitTripStop`: the waypoint matching is library code that is not part of this model. The model keeps the specs as data and proves only which routes are handed to them.
- `Stops.ALL_STOPS` / `Stops2.ALL_STOPS2` are not part of this model. A waypoint is the registry plus the stop code looked up in it.
- `CleanUtils` (`removePoints`, `cleanStreetTypes`, `cleanNumbers`, `cleanLabel`, `cleanSlashes`, `keepToAndRemoveVia`, `CLEAN_AND`, `CLEAN_AT`) is not part of this model. These are opaque function parameters, so nothing is claimed about the idempotence or non-emptiness of a whole `cleanTripHeadsign`.
- `isGoodEnoughAccepted` and the `super.*` fallbacks are external. Their results are parameters.
- Resolver.MergeHeadsign: `MTrip.mergeEmpty` is library code that is not part of this model. It is modelled after its documented behaviour: the non-empty label wins and the first trip keeps its direction.
- `MTrip` fields other than the headsign value and the direction, such as the headsign type: never read by the modelled code.
- A missing direction id in the feed: the flag is an `int`.
- JavaText.EqualsIgnoreCase: folds ASCII letters plus the four non-ASCII characters whose case pair is an ASCII letter. This is exact whenever one side is ASCII, which holds for every literal in the tables. Other non-ASCII case pairs are not modelled.
- JavaText.ParseDecimal: accepts ASCII digits only. Java also accepts other Unicode decimal digits.
- Strings are sequences of Unicode scalar values, not UTF-16 code units. This makes no difference to the ASCII patterns and literals modelled here.
- Cleaning.AmpersandForAnd: `AmpersandForSingleAnd` is proved for one " and " after a word without spaces. A headsign with several " and ", or with spaces before the one it has, is covered by the definition of `replaceAll` only.
- Cleaning.SpaceBeforeParen: `PaddedSingle` is proved for an opening parenthesis that occurs once. Several of them are covered by the definition of `replaceAll` only.
- Cleaning.SpaceAfterParen: `PaddedSingle` is proved for a closing parenthesis that occurs once. Several of them are covered by the definition of `replaceAll` only.
- Cleaning.AbbreviateExchange: stated for a text with one match, wherever it stands, and for a listed word right after a match (`AdjacentExchangeKept`). A text with several separate matches is covered by the definition of `replaceAll` only.
- Cleaning.RemoveSpecial: stated for a text with one match, wherever it stands. A text with several matches is covered by the definition of `replaceAll` only.
- Regex: only the seven pattern shapes the class compiles are modelled, not a general engine.
