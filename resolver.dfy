/** The engine behind `setTripHeadsign` and `mergeHeadsign`: both methods of the
    agency tools are a chain of `if` tests keyed first on the route and then on
    the direction flag (or on the pair of labels), whose first hit updates the
    trip and whose fall-through ends the run. Each file supplies its own tables;
    the engine is the same. */
module Resolver {
  import opened Wrappers
  import opened JavaText
  import opened Directions
  import opened Trips

  // ---------------------------------------------------------------------
  // Headsign rules

  /** How a rule compares the feed headsign with its literals:
      `"x".equalsIgnoreCase(h)` or `Arrays.asList(...).contains(h)`. */
  datatype Compare = IgnoreCase | Exact

  /** The label a matching rule assigns: the cleaned feed headsign, or a fixed
      label when the good-enough mode is accepted. */
  datatype LabelRule = Cleaned | GoodEnoughOr(fixed: string)

  /** One `if (directionId == f)` branch of a route. */
  datatype Branch = Branch(cmp: Compare, headsigns: seq<string>, tag: Direction, labelRule: LabelRule)

  /** The two branches of one route: direction flag 0 and direction flag 1. */
  datatype RouteRules = RouteRules(flag0: Option<Branch>, flag1: Option<Branch>)

  /** What `setTripHeadsign` does with one trip: leave it to the waypoint split,
      assign a label and a direction, or stop on an unexpected headsign. */
  datatype Resolution = Split | Assign(headsign: string, tag: Direction) | Unexpected

  /** The feed headsign `raw` (null when `None`) passes the comparison. */
  predicate Accepts(cmp: Compare, headsigns: seq<string>, raw: Option<string>) {
    match raw
    case None => false
    case Some(h) =>
      match cmp
      case IgnoreCase => exists i | 0 <= i < |headsigns| :: EqualsIgnoreCase(headsigns[i], h)
      case Exact => h in headsigns
  }

  /** A case-insensitive rule accepts a headsign equal, ignoring case, to one
      of its literals. */
  lemma AcceptsIgnoringCase(headsigns: seq<string>, i: nat, h: string)
    requires i < |headsigns| && EqualsIgnoreCase(headsigns[i], h)
    ensures Accepts(IgnoreCase, headsigns, Some(h))
  {
  }

  /** The branch taken for a direction flag; other flags have none. */
  function BranchFor(rules: RouteRules, flag: int): (b: Option<Branch>)
    ensures flag != 0 && flag != 1 ==> b.None?
  {
    if flag == 0 then rules.flag0
    else if flag == 1 then rules.flag1
    else None
  }

  function LabelFor(rule: LabelRule, raw: string, clean: string -> string, goodEnough: bool): (l: string)
    ensures rule.Cleaned? || !goodEnough ==> l == clean(raw)
    ensures rule.GoodEnoughOr? && goodEnough ==> l == rule.fixed
  {
    match rule
    case Cleaned => clean(raw)
    case GoodEnoughOr(fixed) => if goodEnough then fixed else clean(raw)
  }

  /** The decision of `setTripHeadsign` for route `route`, direction flag `flag`
      and feed headsign `raw`; `clean` is the file's `cleanTripHeadsign` and
      `goodEnough` the answer of `isGoodEnoughAccepted()`. */
  function Resolve(overrides: set<int>, table: map<int, RouteRules>, route: int, flag: int,
                   raw: Option<string>, clean: string -> string, goodEnough: bool): (r: Resolution)
    ensures r.Split? <==> route in overrides
    ensures r.Assign? <==>
      route !in overrides && route in table && BranchFor(table[route], flag).Some?
      && Accepts(BranchFor(table[route], flag).value.cmp, BranchFor(table[route], flag).value.headsigns, raw)
    ensures r.Assign? ==> r.tag == BranchFor(table[route], flag).value.tag
    ensures r.Assign? ==> r.headsign == LabelFor(BranchFor(table[route], flag).value.labelRule, raw.value, clean, goodEnough)
  {
    if route in overrides then Split
    else if route in table then
      match BranchFor(table[route], flag)
      case Some(b) =>
        if Accepts(b.cmp, b.headsigns, raw) then Assign(LabelFor(b.labelRule, raw.value, clean, goodEnough), b.tag)
        else Unexpected
      case None => Unexpected
    else Unexpected
  }

  /** `setTripHeadsign`: a route of the waypoint table is left alone, a hit in
      the rule table sets the trip's label and direction, anything else stops
      the run (`System.exit(-1)`) with the trip untouched. */
  method SetTripHeadsign(overrides: set<int>, table: map<int, RouteRules>, route: int, trip: MTrip,
                         flag: int, raw: Option<string>, clean: string -> string, goodEnough: bool)
    returns (status: Status)
    modifies trip
    ensures var r := Resolve(overrides, table, route, flag, raw, clean, goodEnough);
      match r
      case Split => status == Proceed && unchanged(trip)
      case Assign(h, tag) => status == Proceed && trip.headsignValue == h && trip.headsignId == tag
      case Unexpected => status == Exit && unchanged(trip)
  {
    if route in overrides {
      return Proceed;
    }
    if route in table {
      var branch := BranchFor(table[route], flag);
      if branch.Some? && Accepts(branch.value.cmp, branch.value.headsigns, raw) {
        var value := LabelFor(branch.value.labelRule, raw.value, clean, goodEnough);
        trip.SetHeadsignString(value, branch.value.tag);
        return Proceed;
      }
    }
    return Exit;
  }

  // ---------------------------------------------------------------------
  // Merge rules

  /** `Arrays.asList(members).containsAll(labels)` rewrites the label to `canonical`. */
  datatype MergeRule = MergeRule(members: seq<string>, canonical: string)

  /** Both labels belong to the rule's set. */
  predicate Covers(rule: MergeRule, a: string, b: string) {
    a in rule.members && b in rule.members
  }

  /** The canonical label of the first rule, in order, that covers both labels. */
  function FirstMerge(rules: seq<MergeRule>, a: string, b: string): (r: Option<string>)
    ensures r.Some? <==> exists k | 0 <= k < |rules| :: Covers(rules[k], a, b)
    ensures r.Some? ==> exists k | 0 <= k < |rules| ::
      Covers(rules[k], a, b) && r.value == rules[k].canonical
      && forall j | 0 <= j < k :: !Covers(rules[j], a, b)
  {
    if rules == [] then None
    else if Covers(rules[0], a, b) then Some(rules[0].canonical)
    else
      var r := FirstMerge(rules[1..], a, b);
      assert forall k | 1 <= k < |rules| :: rules[k] == rules[1..][k - 1];
      if r.Some? then FirstCoverAfterMiss(rules, a, b, r.value); r else r
  }

  /** A first covering rule of the tail is a first covering rule of the whole
      list when the head does not cover the pair. */
  lemma FirstCoverAfterMiss(rules: seq<MergeRule>, a: string, b: string, c: string)
    requires rules != [] && !Covers(rules[0], a, b)
    requires exists k | 0 <= k < |rules[1..]| ::
      Covers(rules[1..][k], a, b) && c == rules[1..][k].canonical
      && forall j | 0 <= j < k :: !Covers(rules[1..][j], a, b)
    ensures exists k | 0 <= k < |rules| ::
      Covers(rules[k], a, b) && c == rules[k].canonical
      && forall j | 0 <= j < k :: !Covers(rules[j], a, b)
  {
    var k :| 0 <= k < |rules[1..]| && Covers(rules[1..][k], a, b) && c == rules[1..][k].canonical
      && forall j | 0 <= j < k :: !Covers(rules[1..][j], a, b);
    assert rules[k + 1] == rules[1..][k];
    forall j | 0 <= j < k + 1 ensures !Covers(rules[j], a, b) {
      if j > 0 {
        assert rules[j] == rules[1..][j - 1];
      }
    }
  }

  /** Which label `mergeHeadsign` gives the first trip of a route, if any. */
  function MergeDecision(table: map<int, seq<MergeRule>>, route: int, a: string, b: string): (r: Option<string>)
    ensures route !in table ==> r.None?
  {
    if route in table then FirstMerge(table[route], a, b) else None
  }

  /** The order of the two labels does not matter. */
  lemma {:induction false} FirstMergeSymmetric(rules: seq<MergeRule>, a: string, b: string)
    ensures FirstMerge(rules, a, b) == FirstMerge(rules, b, a)
  {
    if rules != [] && !Covers(rules[0], a, b) {
      FirstMergeSymmetric(rules[1..], a, b);
    }
  }

  /** A label that the first rule covering it maps to itself stays as it is when
      merged with itself. */
  lemma FirstMergeSelf(rules: seq<MergeRule>, k: nat, a: string)
    requires k < |rules| && a in rules[k].members && a == rules[k].canonical
    requires forall j | 0 <= j < k :: a !in rules[j].members
    ensures FirstMerge(rules, a, a) == Some(a)
  {
    var r := FirstMerge(rules, a, a);
    assert Covers(rules[k], a, a);
    var k' :| 0 <= k' < |rules| && Covers(rules[k'], a, a) && r.value == rules[k'].canonical
      && forall j | 0 <= j < k' :: !Covers(rules[j], a, a);
    assert k' == k;
  }

  /** `MTrip.mergeEmpty(mTrip, mTripToMerge)` applies: one of the two labels is
      empty. */
  predicate EitherEmpty(a: string, b: string) {
    a == [] || b == []
  }

  /** `mergeHeadsign(mTrip, mTripToMerge)`. When one label is empty,
      `MTrip.mergeEmpty` settles it: the non-empty label wins and the first trip
      keeps its direction. Otherwise the first trip takes the canonical label
      of the first rule of its route that covers both labels and keeps its
      direction, and without such a rule the run stops with the trip
      untouched. */
  method MergeHeadsign(table: map<int, seq<MergeRule>>, trip: MTrip, other: MTrip)
    returns (status: Status)
    modifies trip
    ensures EitherEmpty(old(trip.headsignValue), old(other.headsignValue)) ==>
      status == Proceed
      && trip.headsignValue == (if old(trip.headsignValue) == [] then old(other.headsignValue) else old(trip.headsignValue))
      && trip.headsignId == old(trip.headsignId)
    ensures !EitherEmpty(old(trip.headsignValue), old(other.headsignValue)) ==>
      match MergeDecision(table, trip.routeId, old(trip.headsignValue), old(other.headsignValue))
      case Some(c) => status == Proceed && trip.headsignValue == c && trip.headsignId == old(trip.headsignId)
      case None => status == Exit && unchanged(trip)
  {
    var a, b := trip.headsignValue, other.headsignValue;
    if EitherEmpty(a, b) {
      if a == [] {
        trip.SetHeadsignString(b, trip.headsignId);
      }
      return Proceed;
    }
    var decision := MergeDecision(table, trip.routeId, a, b);
    if decision.Some? {
      trip.SetHeadsignString(decision.value, trip.headsignId);
      return Proceed;
    }
    return Exit;
  }
}
