/** The waypoint table `ALL_ROUTE_TRIPS2` and the dispatch built on it: for a
    route of the table, `compareEarly`, `splitTrip`, `splitTripStop` and
    `setTripHeadsign` all hand the route over to its `RouteTripSpec` instead of
    the default logic. The matching of trips against the waypoints is library
    code and is kept out; the table is data. */
module RouteTrips {
  import opened Wrappers
  import opened Directions
  import opened Resolver

  /** The stop registry a waypoint is looked up in: `Stops.ALL_STOPS` or
      `Stops2.ALL_STOPS2`. The registries themselves are not part of this
      model; a waypoint is the registry plus the stop code it is asked for. */
  datatype StopTable = AllStops | AllStops2

  datatype StopRef = StopRef(table: StopTable, code: string)

  /** `Stops.ALL_STOPS.get(code)`. */
  function St(code: string): StopRef { StopRef(AllStops, code) }

  /** `Stops2.ALL_STOPS2.get(code)`. */
  function S2(code: string): StopRef { StopRef(AllStops2, code) }

  /** One direction of a spec: its tag, its headsign and the ordered
      waypoints of `addTripSort`. */
  datatype TripSort = TripSort(tag: Direction, headsign: string, stops: seq<StopRef>)

  /** `new RouteTripSpec(routeId, tag1, label1, tag2, label2)` with its two trip sorts. */
  datatype RouteTripSpec = RouteTripSpec(routeId: int, first: TripSort, second: TripSort)

  /** The entry stored under key `k` describes route `k`, and its two
      directions carry the two tags of one convention. */
  predicate WellFormed(k: int, spec: RouteTripSpec) {
    spec.routeId == k && Opposite(spec.first.tag, spec.second.tag)
  }

  /** A direction that has a label and at least one waypoint. */
  predicate Complete(ts: TripSort) {
    ts.headsign != [] && ts.stops != []
  }

  /** The spec that `compareEarly`, `splitTrip` and `splitTripStop` defer to, or
      `None` when `ALL_ROUTE_TRIPS2.containsKey(route)` fails and the default
      implementation runs. */
  function Delegate(specs: map<int, RouteTripSpec>, route: int): (d: Option<RouteTripSpec>)
    ensures d.Some? <==> route in specs
  {
    if route in specs then Some(specs[route]) else None
  }

  /** The four overridden methods agree: a route is handed to its spec by the
      split methods exactly when `setTripHeadsign` leaves its trips alone, and
      then the spec describes that very route. */
  lemma DelegateAgreesWithResolve(specs: map<int, RouteTripSpec>, table: map<int, RouteRules>,
                                  route: int, flag: int, raw: Option<string>,
                                  clean: string -> string, goodEnough: bool)
    requires forall k | k in specs :: WellFormed(k, specs[k])
    ensures Delegate(specs, route).Some? <==> Resolve(specs.Keys, table, route, flag, raw, clean, goodEnough).Split?
    ensures Delegate(specs, route).Some? ==> Delegate(specs, route).value.routeId == route
  {
  }
}
