/** The tables of the older snapshot of `KelownaRegionalTransitSystemBusAgencyTools`
    (the one under `src/org/...`), and what they make the shared engine do. */
module OlderTools {
  import opened Wrappers
  import opened JavaText
  import opened Directions
  import opened Trips
  import opened Resolver
  import opened RouteTrips
  import opened Cleaning
  import opened RouteInfo

  /** The keys of `ALL_ROUTE_TRIPS2`: the routes split by waypoints. */
  const OverrideRoutes: set<int> := {2, 3, 6, 10, 13, 15, 16, 17, 19, 21, 22, 23, 28, 29, 32, 88}

  /** Every entry of `m` describes its own route with two opposite tags, and
      every direction but the inbound side of route 88 has a label and
      waypoints. */
  predicate Described(m: map<int, RouteTripSpec>) {
    forall k | k in m :: WellFormed(k, m[k]) && Complete(m[k].second) && (k != 88 ==> Complete(m[k].first))
  }

  /** Adding an entry that describes its own route keeps the map described. */
  lemma DescribedAfterPut(m: map<int, RouteTripSpec>, k: int, spec: RouteTripSpec)
    requires Described(m) && WellFormed(k, spec)
    requires Complete(spec.second) && (k != 88 ==> Complete(spec.first))
    ensures Described(m[k := spec])
  {
  }

  /** `ALL_ROUTE_TRIPS2`: for each route split by waypoints, its two
      directions with their labels and ordered waypoints. */
  const AllRouteTrips2: map<int, RouteTripSpec> := map[
    2 := RouteTripSpec(2,
      TripSort(Clockwise0, "Queensway Exch", [St("102932"), St("102895"), St("102859"), S2("102859")]),
      TripSort(Clockwise1, "Cambridge & Ellis", [St("102859"), S2("102859"), St("102888"), St("102932")])),
    3 := RouteTripSpec(3,
      TripSort(Clockwise0, "Orchard Pk", [St("103041"), St("103168"), St("103079")]),
      TripSort(Clockwise1, "Glenmore @ Summit", [St("103079"), St("103170"), St("103041")])),
    6 := RouteTripSpec(6,
      TripSort(Inbound, "Queensway Exch", [St("140099"), St("103005"), St("102856")]),
      TripSort(Outbound, "UBCO Exch", [St("102856"), St("103010"), St("140100")])),
    10 := RouteTripSpec(10,
      TripSort(East, "Rutland", [St("102854"), St("140151"), S2("140151"), St("103292"), St("103283"), St("103327")]),
      TripSort(West, "Queensway Exch", [St("103430"), St("103396"), St("103283"), St("103327"), St("103343"), St("140149"), S2("140149"), St("103070"), St("102854")])),
    13 := RouteTripSpec(13,
      TripSort(CounterClockwise0, "Country Club", [St("140104"), St("104916"), St("103858")]),
      TripSort(CounterClockwise1, "UBCO", [St("103858"), St("103851"), St("140104")])),
    15 := RouteTripSpec(15,
      TripSort(CounterClockwise0, "Crawford", [St("103021"), St("103316"), St("103401")]),
      TripSort(CounterClockwise1, "Mission Rec Exch", [St("103401"), St("103423"), St("103021")])),
    16 := RouteTripSpec(16,
      TripSort(CounterClockwise0, "Kettle Vly", [St("103022"), St("103319"), St("103808"), St("103562")]),
      TripSort(CounterClockwise1, "Mission Rec Exch", [St("103814"), St("103809"), St("103317"), St("103022")])),
    17 := RouteTripSpec(17,
      TripSort(Clockwise0, "Southridge", [St("103022"), St("103325"), St("103191")]),
      TripSort(Clockwise1, "Mission Rec Exch", [St("103191"), St("103820"), St("103818"), St("103022")])),
    19 := RouteTripSpec(19,
      TripSort(North, "Glenmore", [St("103079"), St("103041"), St("140133")]),
      TripSort(South, "Orchard Pk", [St("140133"), St("103013"), St("103079")])),
    21 := RouteTripSpec(21,
      TripSort(CounterClockwise0, "Glenrosa", [St("140006"), St("103624"), St("103641")]),
      TripSort(CounterClockwise1, "Westbank", [St("103641"), St("103643"), St("140006")])),
    22 := RouteTripSpec(22,
      TripSort(South, "Peachland", [St("140006"), St("103643"), St("103682"), St("103686"), St("103689"), St("103701"), St("103702"), St("103844")]),
      TripSort(North, "Westbank", [St("103844"), St("103690"), St("103686"), St("103675"), St("140006")])),
    23 := RouteTripSpec(23,
      TripSort(South, "UBCO", [St("103660"), St("103652"), St("103609"), St("103656"), St("103619"), St("140106"), St("104915"), St("103847"), St("140098"), St("140103")]),
      TripSort(North, "Lk Country", [St("140103"), St("140159"), St("103846"), St("104916"), St("103680"), St("103610"), St("140105"), St("103480"), St("103620"), St("103611"), St("103650"), St("103472"), St("103685"), St("103660")])),
    28 := RouteTripSpec(28,
      TripSort(CounterClockwise0, "Smith Crk", [St("140005"), St("103541"), St("140063")]),
      TripSort(CounterClockwise1, "Westbank", [St("140063"), St("103573"), St("140005")])),
    29 := RouteTripSpec(29,
      TripSort(CounterClockwise0, "Bear Crk", [St("140011"), St("103115"), St("103043")]),
      TripSort(CounterClockwise1, "Boucherie Mtn", [St("103043"), St("103078"), St("140011")])),
    32 := RouteTripSpec(32,
      TripSort(Clockwise0, "Main & Grant", [St("140081"), St("140088"), St("103472")]),
      TripSort(Clockwise1, "Shoreline & Stillwater", [St("103472"), St("103685"), St("140081")])),
    88 := RouteTripSpec(88,
      TripSort(Inbound, "", []),
      TripSort(Outbound, "Boucherie Mtn", [St("103054"), St("102860"), St("140009")]))
  ]

  /** The static initialiser that fills `map2` one `put` at a time. Every entry
      describes its own route with two opposite tags; every direction has a
      label and waypoints, except the inbound side of route 88, which is left
      blank. */
  method BuildRouteTrips() returns (m: map<int, RouteTripSpec>)
    ensures m == AllRouteTrips2
    ensures m.Keys == OverrideRoutes
    ensures forall k | k in m :: WellFormed(k, m[k])
    ensures forall k | k in m :: Complete(m[k].second) && (k != 88 ==> Complete(m[k].first))
    ensures m[88].first == TripSort(Inbound, "", [])
  {
    m := map[];
    var spec: RouteTripSpec;
    spec := RouteTripSpec(2,
      TripSort(Clockwise0, "Queensway Exch", [St("102932"), St("102895"), St("102859"), S2("102859")]),
      TripSort(Clockwise1, "Cambridge & Ellis", [St("102859"), S2("102859"), St("102888"), St("102932")]));
    DescribedAfterPut(m, 2, spec);
    m := m[2 := spec];
    spec := RouteTripSpec(3,
      TripSort(Clockwise0, "Orchard Pk", [St("103041"), St("103168"), St("103079")]),
      TripSort(Clockwise1, "Glenmore @ Summit", [St("103079"), St("103170"), St("103041")]));
    DescribedAfterPut(m, 3, spec);
    m := m[3 := spec];
    spec := RouteTripSpec(6,
      TripSort(Inbound, "Queensway Exch", [St("140099"), St("103005"), St("102856")]),
      TripSort(Outbound, "UBCO Exch", [St("102856"), St("103010"), St("140100")]));
    DescribedAfterPut(m, 6, spec);
    m := m[6 := spec];
    spec := RouteTripSpec(10,
      TripSort(East, "Rutland", [St("102854"), St("140151"), S2("140151"), St("103292"), St("103283"), St("103327")]),
      TripSort(West, "Queensway Exch", [St("103430"), St("103396"), St("103283"), St("103327"), St("103343"), St("140149"), S2("140149"), St("103070"), St("102854")]));
    DescribedAfterPut(m, 10, spec);
    m := m[10 := spec];
    spec := RouteTripSpec(13,
      TripSort(CounterClockwise0, "Country Club", [St("140104"), St("104916"), St("103858")]),
      TripSort(CounterClockwise1, "UBCO", [St("103858"), St("103851"), St("140104")]));
    DescribedAfterPut(m, 13, spec);
    m := m[13 := spec];
    spec := RouteTripSpec(15,
      TripSort(CounterClockwise0, "Crawford", [St("103021"), St("103316"), St("103401")]),
      TripSort(CounterClockwise1, "Mission Rec Exch", [St("103401"), St("103423"), St("103021")]));
    DescribedAfterPut(m, 15, spec);
    m := m[15 := spec];
    spec := RouteTripSpec(16,
      TripSort(CounterClockwise0, "Kettle Vly", [St("103022"), St("103319"), St("103808"), St("103562")]),
      TripSort(CounterClockwise1, "Mission Rec Exch", [St("103814"), St("103809"), St("103317"), St("103022")]));
    DescribedAfterPut(m, 16, spec);
    m := m[16 := spec];
    spec := RouteTripSpec(17,
      TripSort(Clockwise0, "Southridge", [St("103022"), St("103325"), St("103191")]),
      TripSort(Clockwise1, "Mission Rec Exch", [St("103191"), St("103820"), St("103818"), St("103022")]));
    DescribedAfterPut(m, 17, spec);
    m := m[17 := spec];
    spec := RouteTripSpec(19,
      TripSort(North, "Glenmore", [St("103079"), St("103041"), St("140133")]),
      TripSort(South, "Orchard Pk", [St("140133"), St("103013"), St("103079")]));
    DescribedAfterPut(m, 19, spec);
    m := m[19 := spec];
    spec := RouteTripSpec(21,
      TripSort(CounterClockwise0, "Glenrosa", [St("140006"), St("103624"), St("103641")]),
      TripSort(CounterClockwise1, "Westbank", [St("103641"), St("103643"), St("140006")]));
    DescribedAfterPut(m, 21, spec);
    m := m[21 := spec];
    spec := RouteTripSpec(22,
      TripSort(South, "Peachland", [St("140006"), St("103643"), St("103682"), St("103686"), St("103689"), St("103701"), St("103702"), St("103844")]),
      TripSort(North, "Westbank", [St("103844"), St("103690"), St("103686"), St("103675"), St("140006")]));
    DescribedAfterPut(m, 22, spec);
    m := m[22 := spec];
    spec := RouteTripSpec(23,
      TripSort(South, "UBCO", [St("103660"), St("103652"), St("103609"), St("103656"), St("103619"), St("140106"), St("104915"), St("103847"), St("140098"), St("140103")]),
      TripSort(North, "Lk Country", [St("140103"), St("140159"), St("103846"), St("104916"), St("103680"), St("103610"), St("140105"), St("103480"), St("103620"), St("103611"), St("103650"), St("103472"), St("103685"), St("103660")]));
    DescribedAfterPut(m, 23, spec);
    m := m[23 := spec];
    spec := RouteTripSpec(28,
      TripSort(CounterClockwise0, "Smith Crk", [St("140005"), St("103541"), St("140063")]),
      TripSort(CounterClockwise1, "Westbank", [St("140063"), St("103573"), St("140005")]));
    DescribedAfterPut(m, 28, spec);
    m := m[28 := spec];
    spec := RouteTripSpec(29,
      TripSort(CounterClockwise0, "Bear Crk", [St("140011"), St("103115"), St("103043")]),
      TripSort(CounterClockwise1, "Boucherie Mtn", [St("103043"), St("103078"), St("140011")]));
    DescribedAfterPut(m, 29, spec);
    m := m[29 := spec];
    spec := RouteTripSpec(32,
      TripSort(Clockwise0, "Main & Grant", [St("140081"), St("140088"), St("103472")]),
      TripSort(Clockwise1, "Shoreline & Stillwater", [St("103472"), St("103685"), St("140081")]));
    DescribedAfterPut(m, 32, spec);
    m := m[32 := spec];
    spec := RouteTripSpec(88,
      TripSort(Inbound, "", []),
      TripSort(Outbound, "Boucherie Mtn", [St("103054"), St("102860"), St("140009")]));
    DescribedAfterPut(m, 88, spec);
    m := m[88 := spec];
  }

  /** The `setTripHeadsign` chain, route by route: the branch for direction
      flag 0 and the branch for flag 1. */
  const HeadsignRules: map<int, RouteRules> := map[
    1 := RouteRules(
      Some(Branch(IgnoreCase, ["Downtown", ""], North, Cleaned)),
      Some(Branch(Exact, ["Lakeshore to OK College", "Lakeshore - To OK College", "Lakeshore - To South Pandosy", "Lakeshore - Mission Rec Exch"], South, Cleaned))),
    4 := RouteRules(
      Some(Branch(IgnoreCase, ["UBCO Express"], North, Cleaned)),
      Some(Branch(IgnoreCase, ["Pandosy Express"], South, Cleaned))),
    5 := RouteRules(
      Some(Branch(IgnoreCase, ["Downtown"], North, Cleaned)),
      Some(Branch(IgnoreCase, ["Gordon - Mission Rec Exch"], South, Cleaned))),
    8 := RouteRules(
      Some(Branch(IgnoreCase, ["University - To UBCO", "To Orchard Park"], North, Cleaned)),
      Some(Branch(IgnoreCase, ["OK College", "University to OK College", "To Orchard Park"], South, Cleaned))),
    9 := RouteRules(
      Some(Branch(IgnoreCase, ["Shopper Shuttle - To Downtown"], West, Cleaned)),
      Some(Branch(IgnoreCase, ["Shopper Shuttle - To Orchard Park"], East, Cleaned))),
    11 := RouteRules(
      Some(Branch(Exact, ["Downtown", "to Orchard Park", "To Orchard Park", "Rutland to Orchard Park"], West, Cleaned)),
      Some(Branch(Exact, ["Rutland To 14 Black Mtn", "To Orchard Park", "Rutland"], East, Cleaned))),
    12 := RouteRules(
      Some(Branch(IgnoreCase, ["McCulloch - To Orchard Park", "McCulloch - To South Pandosy", "McCulloch to S.Pandosy Exch"], West, Cleaned)),
      Some(Branch(IgnoreCase, ["McCulloch"], East, Cleaned))),
    14 := RouteRules(
      Some(Branch(Exact, ["Black Mountain - To Rutland", "Black Mountain - To Rutland Exch"], North, Cleaned)),
      Some(Branch(IgnoreCase, ["Black Mountain"], South, Cleaned))),
    18 := RouteRules(
      Some(Branch(IgnoreCase, ["Glenmore"], North, Cleaned)),
      Some(Branch(IgnoreCase, ["Downtown"], South, Cleaned))),
    20 := RouteRules(
      Some(Branch(IgnoreCase, ["Lakeview - To Westbank"], West, Cleaned)),
      Some(Branch(IgnoreCase, ["Lakeview - Boucherie Mtn"], East, Cleaned))),
    24 := RouteRules(
      Some(Branch(IgnoreCase, ["Shannon Lake - To Westbank"], West, Cleaned)),
      Some(Branch(IgnoreCase, ["Shannon Lake - Boucherie Mtn"], East, Cleaned))),
    25 := RouteRules(
      Some(Branch(IgnoreCase, ["East Boundary - To Westbank"], West, Cleaned)),
      Some(Branch(IgnoreCase, ["East Boundary - Boucherie Mtn"], East, Cleaned))),
    97 := RouteRules(
      Some(Branch(IgnoreCase, ["Westbank", "Downtown"], West, Cleaned)),
      Some(Branch(IgnoreCase, ["UBCO", "Downtown"], East, Cleaned)))
  ]

  /** The `mergeHeadsign` chain: per route, the label sets tried in order and
      the label each one settles on. */
  const MergeRules: map<int, seq<MergeRule>> := map[
    1 := [MergeRule(["OK College", "South Pandosy", "Mission Rec Exch"], "Mission Rec Exch")],
    8 := [MergeRule(["Orchard Pk", "OK College"], "OK College"),
          MergeRule(["Orchard Pk", "UBCO"], "UBCO")],
    11 := [MergeRule(["Orchard Pk", "Black Mtn", "Rutland"], "Rutland"),
           MergeRule(["Orchard Pk", "Downtown"], "Downtown")],
    12 := [MergeRule(["Orchard Pk", "S.Pandosy Exch"], "S.Pandosy Exch"),
           MergeRule(["Orchard Pk", "South Pandosy"], "South Pandosy")],
    97 := [MergeRule(["Downtown", "Westbank"], "Westbank"),
           MergeRule(["Downtown", "UBCO"], "UBCO")]
  ]

  /** This snapshot's `cleanTripHeadsign`, as the function the rules apply. */
  function Clean(cu: CleanUtils): string -> string {
    s => OlderCleanTripHeadsign(cu, s)
  }

  /** What `setTripHeadsign` decides for a trip of `route` with direction flag
      `flag` and feed headsign `raw`. This snapshot never consults the
      good-enough mode, so a hit is always labelled with the cleaned headsign. */
  function Decide(cu: CleanUtils, route: int, flag: int, raw: Option<string>): (r: Resolution)
    ensures r.Split? <==> route in OverrideRoutes
    ensures r.Assign? ==> raw.Some? && r.headsign == OlderCleanTripHeadsign(cu, raw.value)
    ensures r.Assign? ==> route in HeadsignRules && (flag == 0 || flag == 1)
  {
    Resolve(OverrideRoutes, HeadsignRules, route, flag, raw, Clean(cu), false)
  }

  /** This snapshot's `setTripHeadsign`: the shared engine run on its tables. */
  method SetTripHeadsign(cu: CleanUtils, route: int, trip: MTrip, flag: int, raw: Option<string>)
    returns (status: Status)
    modifies trip
    ensures match Decide(cu, route, flag, raw)
      case Split => status == Proceed && unchanged(trip)
      case Assign(h, tag) => status == Proceed && trip.headsignValue == h && trip.headsignId == tag
      case Unexpected => status == Exit && unchanged(trip)
  {
    status := Resolver.SetTripHeadsign(OverrideRoutes, HeadsignRules, route, trip, flag, raw, Clean(cu), false);
  }

  /** This snapshot's `mergeHeadsign`: the shared engine run on its merge rules. */
  method MergeHeadsign(trip: MTrip, other: MTrip) returns (status: Status)
    modifies trip
    ensures EitherEmpty(old(trip.headsignValue), old(other.headsignValue)) ==>
      status == Proceed
      && trip.headsignValue == (if old(trip.headsignValue) == [] then old(other.headsignValue) else old(trip.headsignValue))
      && trip.headsignId == old(trip.headsignId)
    ensures !EitherEmpty(old(trip.headsignValue), old(other.headsignValue)) ==>
      match MergeDecision(MergeRules, trip.routeId, old(trip.headsignValue), old(other.headsignValue))
      case Some(c) => status == Proceed && trip.headsignValue == c && trip.headsignId == old(trip.headsignId)
      case None => status == Exit && unchanged(trip)
  {
    status := Resolver.MergeHeadsign(MergeRules, trip, other);
  }

  /** No route is both split by waypoints and listed in the rule chain. */
  lemma OverridesAndRulesDisjoint()
    ensures OverrideRoutes * HeadsignRules.Keys == {}
  {
  }

  /** Every listed route has a branch for each flag, and the two branches hand
      out the two tags of one convention. */
  lemma RuleTagsOpposite(k: int)
    requires k in HeadsignRules
    ensures HeadsignRules[k].flag0.Some? && HeadsignRules[k].flag1.Some?
    ensures Opposite(HeadsignRules[k].flag0.value.tag, HeadsignRules[k].flag1.value.tag)
  {
  }

  /** On route 8 "To Orchard Park", in any casing, is listed under both flags:
      the flag alone decides between north and south. */
  lemma Route8FlagDecides(cu: CleanUtils, h: string)
    requires EqualsIgnoreCase("To Orchard Park", h)
    ensures Decide(cu, 8, 0, Some(h)).Assign? && Decide(cu, 8, 0, Some(h)).tag == North
    ensures Decide(cu, 8, 1, Some(h)).Assign? && Decide(cu, 8, 1, Some(h)).tag == South
    ensures Decide(cu, 8, 0, Some(h)).headsign == Decide(cu, 8, 1, Some(h)).headsign == OlderCleanTripHeadsign(cu, h)
  {
    assert HeadsignRules[8].flag0 == Some(Branch(IgnoreCase, ["University - To UBCO", "To Orchard Park"], North, Cleaned));
    assert HeadsignRules[8].flag1 == Some(Branch(IgnoreCase, ["OK College", "University to OK College", "To Orchard Park"], South, Cleaned));
    AcceptsIgnoringCase(["University - To UBCO", "To Orchard Park"], 1, h);
    AcceptsIgnoringCase(["OK College", "University to OK College", "To Orchard Park"], 2, h);
  }

  /** Route 5, flag 0 compares ignoring case: "downtown" goes north like "Downtown". */
  lemma Route5AnyCase(cu: CleanUtils, h: string)
    requires EqualsIgnoreCase("Downtown", h)
    ensures Decide(cu, 5, 0, Some(h)).Assign? && Decide(cu, 5, 0, Some(h)).tag == North
    ensures Decide(cu, 5, 0, Some(h)).headsign == OlderCleanTripHeadsign(cu, h)
  {
    assert HeadsignRules[5].flag0 == Some(Branch(IgnoreCase, ["Downtown"], North, Cleaned));
    AcceptsIgnoringCase(["Downtown"], 0, h);
  }

  /** Route 1, flag 1 compares with list membership: only the exact texts pass. */
  lemma Route1SouthExact(cu: CleanUtils, h: string)
    ensures Decide(cu, 1, 1, Some(h)).Assign? <==>
      h in ["Lakeshore to OK College", "Lakeshore - To OK College",
            "Lakeshore - To South Pandosy", "Lakeshore - Mission Rec Exch"]
    ensures Decide(cu, 1, 1, Some(h)).Assign? ==> Decide(cu, 1, 1, Some(h)).tag == South
  {
    assert HeadsignRules[1].flag1 == Some(Branch(Exact, ["Lakeshore to OK College", "Lakeshore - To OK College",
            "Lakeshore - To South Pandosy", "Lakeshore - Mission Rec Exch"], South, Cleaned));
  }

  /** Both flags of route 11 compare with list membership, which is why both
      "to Orchard Park" and "To Orchard Park" are listed. */
  lemma Route11Exact(cu: CleanUtils, h: string)
    ensures Decide(cu, 11, 0, Some(h)).Assign? <==>
      h in ["Downtown", "to Orchard Park", "To Orchard Park", "Rutland to Orchard Park"]
    ensures Decide(cu, 11, 1, Some(h)).Assign? <==>
      h in ["Rutland To 14 Black Mtn", "To Orchard Park", "Rutland"]
  {
    assert HeadsignRules[11] == RouteRules(
      Some(Branch(Exact, ["Downtown", "to Orchard Park", "To Orchard Park", "Rutland to Orchard Park"], West, Cleaned)),
      Some(Branch(Exact, ["Rutland To 14 Black Mtn", "To Orchard Park", "Rutland"], East, Cleaned)));
  }

  /** Route 14, flag 0 compares with list membership. */
  lemma Route14NorthExact(cu: CleanUtils, h: string)
    ensures Decide(cu, 14, 0, Some(h)).Assign? <==>
      h in ["Black Mountain - To Rutland", "Black Mountain - To Rutland Exch"]
  {
    assert HeadsignRules[14].flag0 == Some(Branch(Exact, ["Black Mountain - To Rutland", "Black Mountain - To Rutland Exch"], North, Cleaned));
  }

  /** Any other casing of "To Orchard Park" ("TO ORCHARD PARK", say), which
      `Route8FlagDecides` accepts on route 8, is refused by the list rule of
      route 11 and ends the run there. */
  lemma CasingsRefusedByList(cu: CleanUtils, h: string)
    requires EqualsIgnoreCase("To Orchard Park", h)
    requires h != "To Orchard Park" && h != "to Orchard Park"
    ensures Decide(cu, 11, 0, Some(h)) == Unexpected
  {
    Route11Exact(cu, h);
    assert |h| != |"Downtown"| && |h| != |"Rutland to Orchard Park"|;
  }

  /** Anything the chain does not list ends the run: a route outside both
      tables (route 7, say), a flag other than 0 and 1, or a null headsign. */
  lemma UnlistedIsFatal(cu: CleanUtils, route: int, flag: int, raw: Option<string>)
    requires route !in OverrideRoutes
    requires route !in HeadsignRules || (flag != 0 && flag != 1) || raw.None?
    ensures Decide(cu, route, flag, raw) == Unexpected
  {
  }

  lemma Route7IsFatal(cu: CleanUtils, flag: int, raw: Option<string>)
    ensures Decide(cu, 7, flag, raw) == Unexpected
  {
    UnlistedIsFatal(cu, 7, flag, raw);
  }

  /** A merge never invents a label: each rule settles on one of its own members. */
  lemma MergeStaysInSet(k: int, j: int)
    requires k in MergeRules && 0 <= j < |MergeRules[k]|
    ensures MergeRules[k][j].canonical in MergeRules[k][j].members
  {
  }

  /** Rules are tried in order: on route 8 a pair of "Orchard Pk" is covered by
      both rules and the first one wins. */
  lemma Route8FirstRuleWins(a: string)
    requires a == "Orchard Pk"
    ensures Covers(MergeRules[8][0], a, a) && Covers(MergeRules[8][1], a, a)
    ensures MergeDecision(MergeRules, 8, a, a) == Some("OK College")
  {
  }

  lemma Route1Merge(a: string, b: string)
    requires a == "OK College" && b == "South Pandosy"
    ensures MergeDecision(MergeRules, 1, a, b) == Some("Mission Rec Exch")
    ensures MergeDecision(MergeRules, 1, b, a) == Some("Mission Rec Exch")
  {
  }

  /** Pairs no rule covers end the run: "OK College" with "UBCO" on route 8,
      and every pair on route 4, which has no rule at all. */
  lemma UncoveredPairs(a: string, b: string, x: string, y: string)
    requires a == "OK College" && b == "UBCO"
    ensures MergeDecision(MergeRules, 8, a, b) == None
    ensures MergeDecision(MergeRules, 4, x, y) == None
  {
  }

  /** Of all the routes the tables know, only 88 is missing from the color
      switch: with no color in the feed, it ends the run. */
  lemma RoutesWithoutColor(k: int)
    requires k in HeadsignRules || k in OverrideRoutes
    ensures SwitchColor(k).None? <==> k == 88
  {
  }
}
