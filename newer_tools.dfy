/** The tables of the newer snapshot of `KelownaRegionalTransitSystemBusAgencyTools`
    (the one under `src/main/java/...`), and what they make the shared engine do. */
module NewerTools {
  import opened Wrappers
  import opened JavaText
  import opened Directions
  import opened Trips
  import opened Resolver
  import opened RouteTrips
  import opened Cleaning
  import opened RouteInfo

  /** The keys of `ALL_ROUTE_TRIPS2`: the routes split by waypoints. */
  const OverrideRoutes: set<int> := {2, 3, 13, 15, 16, 17, 21, 29, 32}

  /** `ALL_ROUTE_TRIPS2`: for each route split by waypoints, its two
      directions with their labels and ordered waypoints. */
  const AllRouteTrips2: map<int, RouteTripSpec> := map[
    2 := RouteTripSpec(2,
      TripSort(Clockwise0, "Queensway Exch", [St("102932"), St("102895"), St("102859"), S2("102859")]),
      TripSort(Clockwise1, "Cambridge & Ellis", [St("102859"), S2("102859"), St("102888"), St("102932")])),
    3 := RouteTripSpec(3,
      TripSort(Clockwise0, "Orchard Pk", [St("103041"), St("103168"), St("103079")]),
      TripSort(Clockwise1, "Glenmore @ Summit", [St("103079"), St("103170"), St("103041")])),
    13 := RouteTripSpec(13,
      TripSort(CounterClockwise0, "Country Club", [St("140104"), St("104916"), St("103858")]),
      TripSort(CounterClockwise1, "UBCO", [St("103858"), St("103851"), St("140104")])),
    15 := RouteTripSpec(15,
      TripSort(CounterClockwise0, "Crawford", [St("103021"), St("103316"), St("103401")]),
      TripSort(CounterClockwise1, "Mission Rec Exch", [St("103401"), St("103423"), St("103021")])),
    16 := RouteTripSpec(16,
      TripSort(CounterClockwise0, "Kettle Vly", [St("103022"), St("103319"), St("103808"), St("103562")]),
      TripSort(CounterClockwise1, "Mission Rec Exch", [St("103814"), St("103809"), St("103317"), St("103022")])),
    17 := RouteTripSpec(17,
      TripSort(Clockwise0, "Southridge", [St("103022"), St("103325"), St("103191")]),
      TripSort(Clockwise1, "Mission Rec Exch", [St("103191"), St("103820"), St("103818"), St("103022")])),
    21 := RouteTripSpec(21,
      TripSort(CounterClockwise0, "Glenrosa", [St("140006"), St("103624"), St("103641")]),
      TripSort(CounterClockwise1, "Westbank", [St("103641"), St("103643"), St("140006")])),
    29 := RouteTripSpec(29,
      TripSort(CounterClockwise0, "Bear Crk", [St("140011"), St("103115"), St("103043")]),
      TripSort(CounterClockwise1, "Boucherie Mtn", [St("103043"), St("103078"), St("140011")])),
    32 := RouteTripSpec(32,
      TripSort(Clockwise0, "Main & Grant", [St("140081"), St("140088"), St("103472"), S2("103472")]),
      TripSort(Clockwise1, "Shoreline & Stillwater", [St("103472"), S2("103472"), St("103685"), St("140081")]))
  ]

  /** The static initialiser that fills `map2` one `put` at a time. Every entry
      describes its own route with two opposite tags, and every direction has
      a label and waypoints. */
  method BuildRouteTrips() returns (m: map<int, RouteTripSpec>)
    ensures m == AllRouteTrips2
    ensures m.Keys == OverrideRoutes
    ensures forall k | k in m :: WellFormed(k, m[k])
    ensures forall k | k in m :: Complete(m[k].first) && Complete(m[k].second)
  {
    m := map[];
    m := m[2 := RouteTripSpec(2,
      TripSort(Clockwise0, "Queensway Exch", [St("102932"), St("102895"), St("102859"), S2("102859")]),
      TripSort(Clockwise1, "Cambridge & Ellis", [St("102859"), S2("102859"), St("102888"), St("102932")]))];
    m := m[3 := RouteTripSpec(3,
      TripSort(Clockwise0, "Orchard Pk", [St("103041"), St("103168"), St("103079")]),
      TripSort(Clockwise1, "Glenmore @ Summit", [St("103079"), St("103170"), St("103041")]))];
    m := m[13 := RouteTripSpec(13,
      TripSort(CounterClockwise0, "Country Club", [St("140104"), St("104916"), St("103858")]),
      TripSort(CounterClockwise1, "UBCO", [St("103858"), St("103851"), St("140104")]))];
    m := m[15 := RouteTripSpec(15,
      TripSort(CounterClockwise0, "Crawford", [St("103021"), St("103316"), St("103401")]),
      TripSort(CounterClockwise1, "Mission Rec Exch", [St("103401"), St("103423"), St("103021")]))];
    m := m[16 := RouteTripSpec(16,
      TripSort(CounterClockwise0, "Kettle Vly", [St("103022"), St("103319"), St("103808"), St("103562")]),
      TripSort(CounterClockwise1, "Mission Rec Exch", [St("103814"), St("103809"), St("103317"), St("103022")]))];
    m := m[17 := RouteTripSpec(17,
      TripSort(Clockwise0, "Southridge", [St("103022"), St("103325"), St("103191")]),
      TripSort(Clockwise1, "Mission Rec Exch", [St("103191"), St("103820"), St("103818"), St("103022")]))];
    m := m[21 := RouteTripSpec(21,
      TripSort(CounterClockwise0, "Glenrosa", [St("140006"), St("103624"), St("103641")]),
      TripSort(CounterClockwise1, "Westbank", [St("103641"), St("103643"), St("140006")]))];
    m := m[29 := RouteTripSpec(29,
      TripSort(CounterClockwise0, "Bear Crk", [St("140011"), St("103115"), St("103043")]),
      TripSort(CounterClockwise1, "Boucherie Mtn", [St("103043"), St("103078"), St("140011")]))];
    m := m[32 := RouteTripSpec(32,
      TripSort(Clockwise0, "Main & Grant", [St("140081"), St("140088"), St("103472"), S2("103472")]),
      TripSort(Clockwise1, "Shoreline & Stillwater", [St("103472"), S2("103472"), St("103685"), St("140081")]))];
  }

  /** The `setTripHeadsign` chain, route by route: the branch for direction
      flag 0 and the branch for flag 1. */
  const HeadsignRules: map<int, RouteRules> := map[
    1 := RouteRules(
      Some(Branch(IgnoreCase, ["Downtown", ""], North, Cleaned)),
      Some(Branch(Exact, ["Lakeshore to OK College", "Lakeshore - To OK College", "Lakeshore - To South Pandosy", "Lakeshore - Mission Rec Exch"], South, Cleaned))),
    4 := RouteRules(
      Some(Branch(IgnoreCase, ["UBCO Express"], North, Cleaned)),
      Some(Branch(IgnoreCase, ["Pandosy Express"], South, Cleaned))),
    5 := RouteRules(
      Some(Branch(IgnoreCase, ["Downtown"], North, Cleaned)),
      Some(Branch(IgnoreCase, ["Gordon - Mission Rec Exch"], South, Cleaned))),
    6 := RouteRules(
      Some(Branch(IgnoreCase, ["Downtown"], Inbound, Cleaned)),
      Some(Branch(IgnoreCase, ["UBCO"], Outbound, Cleaned))),
    8 := RouteRules(
      Some(Branch(IgnoreCase, ["University - To UBCO", "To Orchard Park"], North, Cleaned)),
      Some(Branch(IgnoreCase, ["OK College", "University to OK College", "To Orchard Park"], South, Cleaned))),
    9 := RouteRules(
      Some(Branch(IgnoreCase, ["Shopper Shuttle - To Downtown"], West, Cleaned)),
      Some(Branch(IgnoreCase, ["Shopper Shuttle - To Orchard Park"], East, Cleaned))),
    10 := RouteRules(
      Some(Branch(Exact, ["North Rutland", "Downtown", "To Orchard Park"], West, Cleaned)),
      Some(Branch(IgnoreCase, ["North Rutland"], East, Cleaned))),
    11 := RouteRules(
      Some(Branch(Exact, ["Downtown", "to Orchard Park", "To Orchard Park", "Rutland to Orchard Park"], West, Cleaned)),
      Some(Branch(Exact, ["Rutland To 14 Black Mtn", "To Orchard Park", "Rutland"], East, Cleaned))),
    12 := RouteRules(
      Some(Branch(IgnoreCase, ["McCulloch - To Orchard Park", "McCulloch - To South Pandosy", "McCulloch to OK College"], West, Cleaned)),
      Some(Branch(IgnoreCase, ["McCulloch"], East, Cleaned))),
    14 := RouteRules(
      Some(Branch(Exact, ["Black Mountain - To Rutland", "Black Mountain - To Rutland Exch"], North, Cleaned)),
      Some(Branch(IgnoreCase, ["Black Mountain"], South, Cleaned))),
    18 := RouteRules(
      Some(Branch(IgnoreCase, ["Glenmore"], North, Cleaned)),
      Some(Branch(IgnoreCase, ["Downtown"], South, Cleaned))),
    19 := RouteRules(
      Some(Branch(IgnoreCase, ["Glenmore"], North, Cleaned)),
      Some(Branch(IgnoreCase, ["Orchard Park"], South, Cleaned))),
    20 := RouteRules(
      Some(Branch(IgnoreCase, ["Lakeview - To Westbank"], West, Cleaned)),
      Some(Branch(IgnoreCase, ["Lakeview - Boucherie Mtn"], East, Cleaned))),
    22 := RouteRules(
      Some(Branch(IgnoreCase, ["Peachland - To Westbank", "Peachland Exp - To Westbank"], North, Cleaned)),
      Some(Branch(IgnoreCase, ["Peachland"], South, Cleaned))),
    23 := RouteRules(
      Some(Branch(IgnoreCase, ["Lake Country", "Lake Country Via Airport", "Lake Country - Old Vernon Rd"], North, Cleaned)),
      Some(Branch(IgnoreCase, ["UBCO", "UBCO Via Airport", "UBCO - Old Vernon Rd"], South, Cleaned))),
    24 := RouteRules(
      Some(Branch(IgnoreCase, ["Shannon Lake - To Westbank", "Shannon Ridge- To Westbank"], West, Cleaned)),
      Some(Branch(IgnoreCase, ["Shannon Lake - Boucherie Mtn", "Shannon Ridge - Boucherie Mtn"], East, Cleaned))),
    25 := RouteRules(
      Some(Branch(IgnoreCase, ["East Boundary - To Westbank"], West, Cleaned)),
      Some(Branch(IgnoreCase, ["East Boundary - Boucherie Mtn"], East, Cleaned))),
    26 := RouteRules(
      Some(Branch(IgnoreCase, ["Old Okanagan - Boucherie Mtn"], North, Cleaned)),
      Some(Branch(IgnoreCase, ["East Boundary - To Westbank", "Old Okanagan - Westbank Ex."], South, Cleaned))),
    28 := RouteRules(
      Some(Branch(IgnoreCase, ["Shannon Lake - Boucherie Mtn"], North, Cleaned)),
      Some(Branch(IgnoreCase, ["Shannon Lake - Westbank"], South, Cleaned))),
    88 := RouteRules(
      None,
      Some(Branch(IgnoreCase, ["Special"], Outbound, GoodEnoughOr("Boucherie Mtn")))),
    97 := RouteRules(
      Some(Branch(IgnoreCase, ["Westbank", "Downtown"], West, Cleaned)),
      Some(Branch(IgnoreCase, ["UBCO", "Downtown"], East, Cleaned)))

  ]

  /** The `mergeHeadsign` chain: per route, the label sets tried in order and
      the label each one settles on. */
  const MergeRules: map<int, seq<MergeRule>> := map[
    1 := [MergeRule(["OK College", "South Pandosy", "Mission Rec Exch"], "Mission Rec Exch")],
    8 := [MergeRule(["Orchard Pk", "OK College"], "OK College"),
          MergeRule(["Orchard Pk", "UBCO"], "UBCO")],
    10 := [MergeRule(["North Rutland", "Orchard Pk", "Downtown"], "Downtown")],
    11 := [MergeRule(["Orchard Pk", "Black Mtn", "Rutland"], "Rutland"),
           MergeRule(["Orchard Pk", "Downtown"], "Downtown")],
    12 := [MergeRule(["Orchard Pk", "OK College", "South Pandosy"], "South Pandosy")],
    23 := [MergeRule(["Old Vernon Rd", "Lk Country"], "Lk Country"),
           MergeRule(["Old Vernon Rd", "UBCO"], "UBCO")],
    97 := [MergeRule(["Downtown", "Westbank"], "Westbank"),
           MergeRule(["Downtown", "UBCO"], "UBCO")]
  ]

  /** This snapshot's `cleanTripHeadsign`, as the function the rules apply. */
  function Clean(cu: CleanUtils): string -> string {
    s => NewerCleanTripHeadsign(cu, s)
  }

  /** What `setTripHeadsign` decides for a trip of `route` with direction flag
      `flag` and feed headsign `raw`, `goodEnough` being the answer of
      `isGoodEnoughAccepted()`. Only route 88 ever uses a fixed label. */
  function Decide(cu: CleanUtils, route: int, flag: int, raw: Option<string>, goodEnough: bool): (r: Resolution)
    ensures r.Split? <==> route in OverrideRoutes
    ensures r.Assign? ==> raw.Some? && route in HeadsignRules && (flag == 0 || flag == 1)
    ensures r.Assign? && (route != 88 || !goodEnough) ==> r.headsign == NewerCleanTripHeadsign(cu, raw.value)
  {
    if route in HeadsignRules && route != 88 then
      FixedLabelOnlyOnRoute88(route);
      Resolve(OverrideRoutes, HeadsignRules, route, flag, raw, Clean(cu), goodEnough)
    else
      Resolve(OverrideRoutes, HeadsignRules, route, flag, raw, Clean(cu), goodEnough)
  }

  /** This snapshot's `setTripHeadsign`: the shared engine run on its tables. */
  method SetTripHeadsign(cu: CleanUtils, route: int, trip: MTrip, flag: int, raw: Option<string>, goodEnough: bool)
    returns (status: Status)
    modifies trip
    ensures match Decide(cu, route, flag, raw, goodEnough)
      case Split => status == Proceed && unchanged(trip)
      case Assign(h, tag) => status == Proceed && trip.headsignValue == h && trip.headsignId == tag
      case Unexpected => status == Exit && unchanged(trip)
  {
    status := Resolver.SetTripHeadsign(OverrideRoutes, HeadsignRules, route, trip, flag, raw, Clean(cu), goodEnough);
  }

  /** This snapshot's `mergeHeadsign`: the shared engine run on its merge rules. */
  method MergeHeadsign(trip: MTrip, other: MTrip) returns (status: Status)
    modifies trip
    ensures EitherEmpty(old(trip.headsignValue), old(other.headsignValue)) ==>
      status == Proceed
      && trip.headsignValue == (if old(trip.headsignValue) == [] then old(other.headsignValue) else old(trip.headsignValue))
      && trip.headsignId == old(trip.headsignId)
    ensures !EitherEmpty(old(trip.headsignValue), old(other.headsignValue)) ==>
      match MergeDecision(MergeRules, trip.routeId, old(trip.headsignValue), old(other.headsignValue))
      case Some(c) => status == Proceed && trip.headsignValue == c && trip.headsignId == old(trip.headsignId)
      case None => status == Exit && unchanged(trip)
  {
    status := Resolver.MergeHeadsign(MergeRules, trip, other);
  }

  /** No route is both split by waypoints and listed in the rule chain. */
  lemma OverridesAndRulesDisjoint()
    ensures OverrideRoutes * HeadsignRules.Keys == {}
  {
  }

  /** Every listed route other than 88 has a branch for each flag, and the two
      branches hand out the two tags of one convention; route 88 has a flag 1
      branch only. */
  lemma RuleTagsOpposite(k: int)
    requires k in HeadsignRules
    ensures HeadsignRules[k].flag1.Some?
    ensures HeadsignRules[k].flag0.Some? <==> k != 88
    ensures k != 88 ==> Opposite(HeadsignRules[k].flag0.value.tag, HeadsignRules[k].flag1.value.tag)
  {
  }

  /** Every branch of every listed route other than 88 labels the trip with
      the cleaned feed headsign; only route 88 falls back to a fixed label. */
  lemma FixedLabelOnlyOnRoute88(k: int)
    requires k in HeadsignRules
    ensures k != 88 <==> HeadsignRules[k].flag1.value.labelRule.Cleaned?
    ensures k != 88 ==> HeadsignRules[k].flag0.Some? && HeadsignRules[k].flag0.value.labelRule.Cleaned?
  {
    RuleTagsOpposite(k);
  }

  /** Route 88, flag 1: "Special" in any casing goes outbound, labelled
      "Boucherie Mtn" in good-enough mode and with the cleaned headsign
      otherwise. */
  lemma Route88Special(cu: CleanUtils, h: string, goodEnough: bool)
    requires EqualsIgnoreCase("Special", h)
    ensures Decide(cu, 88, 1, Some(h), goodEnough).Assign?
    ensures Decide(cu, 88, 1, Some(h), goodEnough).tag == Outbound
    ensures Decide(cu, 88, 1, Some(h), goodEnough).headsign ==
      if goodEnough then "Boucherie Mtn" else NewerCleanTripHeadsign(cu, h)
  {
    assert HeadsignRules[88].flag1 == Some(Branch(IgnoreCase, ["Special"], Outbound, GoodEnoughOr("Boucherie Mtn")));
    AcceptsIgnoringCase(["Special"], 0, h);
  }

  /** Route 88 has no flag 0 branch: every such trip ends the run. */
  lemma Route88Flag0IsFatal(cu: CleanUtils, raw: Option<string>, goodEnough: bool)
    ensures Decide(cu, 88, 0, raw, goodEnough) == Unexpected
  {
  }

  /** Route 10, flag 0 compares with list membership and goes west. */
  lemma Route10WestExact(cu: CleanUtils, h: string, goodEnough: bool)
    ensures Decide(cu, 10, 0, Some(h), goodEnough).Assign? <==>
      h in ["North Rutland", "Downtown", "To Orchard Park"]
    ensures Decide(cu, 10, 0, Some(h), goodEnough).Assign? ==>
      Decide(cu, 10, 0, Some(h), goodEnough).tag == West
  {
  }

  /** Route 10, flag 1 compares ignoring case and goes east. */
  lemma Route10EastAnyCase(cu: CleanUtils, h: string, goodEnough: bool)
    ensures Decide(cu, 10, 1, Some(h), goodEnough).Assign? <==> EqualsIgnoreCase("North Rutland", h)
    ensures Decide(cu, 10, 1, Some(h), goodEnough).Assign? ==>
      Decide(cu, 10, 1, Some(h), goodEnough).tag == East
  {
    assert HeadsignRules[10].flag1 == Some(Branch(IgnoreCase, ["North Rutland"], East, Cleaned));
    if EqualsIgnoreCase("North Rutland", h) {
      AcceptsIgnoringCase(["North Rutland"], 0, h);
    }
  }

  /** Anything the chain does not list ends the run: a route outside both
      tables, a flag other than 0 and 1, or a null headsign. */
  lemma UnlistedIsFatal(cu: CleanUtils, route: int, flag: int, raw: Option<string>, goodEnough: bool)
    requires route !in OverrideRoutes
    requires route !in HeadsignRules || (flag != 0 && flag != 1) || raw.None?
    ensures Decide(cu, route, flag, raw, goodEnough) == Unexpected
  {
  }

  /** A merge never invents a label: each rule settles on one of its own members. */
  lemma MergeStaysInSet(k: int, j: int)
    requires k in MergeRules && 0 <= j < |MergeRules[k]|
    ensures MergeRules[k][j].canonical in MergeRules[k][j].members
  {
  }

  /** Route 12: any two labels of {Orchard Pk, OK College, South Pandosy}
      merge into "South Pandosy". */
  lemma Route12Merge(a: string, b: string)
    requires a in ["Orchard Pk", "OK College", "South Pandosy"]
    requires b in ["Orchard Pk", "OK College", "South Pandosy"]
    ensures MergeDecision(MergeRules, 12, a, b) == Some("South Pandosy")
  {
  }

  /** Route 10: any two labels of {North Rutland, Orchard Pk, Downtown} merge
      into "Downtown". */
  lemma Route10Merge(a: string, b: string)
    requires a in ["North Rutland", "Orchard Pk", "Downtown"]
    requires b in ["North Rutland", "Orchard Pk", "Downtown"]
    ensures MergeDecision(MergeRules, 10, a, b) == Some("Downtown")
  {
  }

  /** Route 23: "Old Vernon Rd" merges into either terminus, but the two
      termini do not merge with each other. */
  lemma Route23Merge()
    ensures MergeDecision(MergeRules, 23, "Old Vernon Rd", "Lk Country") == Some("Lk Country")
    ensures MergeDecision(MergeRules, 23, "Old Vernon Rd", "UBCO") == Some("UBCO")
    ensures MergeDecision(MergeRules, 23, "Lk Country", "UBCO") == None
  {
  }

  /** Of all the routes the tables know, only 26 and 88 are missing from the
      color switch: with no color in the feed, those two end the run. */
  lemma RoutesWithoutColor(k: int)
    requires k in HeadsignRules || k in OverrideRoutes
    ensures SwitchColor(k).None? <==> k == 26 || k == 88
  {
  }
}
