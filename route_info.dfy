/** The per-route and per-stop values the agency tools compute from feed
    records: the numeric route and stop ids, the route long name and the route
    color. Both snapshots share them line for line. */
module RouteInfo {
  import opened Wrappers
  import opened JavaText
  import opened Cleaning

  // ---------------------------------------------------------------------
  // Ids

  /** `getRouteId`: `Long.parseLong` of the route short name; a null or
      malformed name, or one out of the long range, throws and ends the run. */
  function RouteId(shortName: Option<string>): (r: Result<int>)
    ensures r.Ok? ==> LongMin <= r.value <= LongMax
    ensures r.Ok? <==> shortName.Some? && IsDecimal(shortName.value) && LongMin <= DecimalValue(shortName.value) <= LongMax
    ensures r.Ok? ==> r.value == DecimalValue(shortName.value)
  {
    match ParseDecimal(shortName, LongMin, LongMax)
    case Some(n) => Ok(n)
    case None => Fatal
  }

  /** `getStopId`: `Integer.parseInt` of the stop code. */
  function StopId(code: Option<string>): (r: Result<int>)
    ensures r.Ok? ==> IntMin <= r.value <= IntMax
    ensures r.Ok? <==> code.Some? && IsDecimal(code.value) && IntMin <= DecimalValue(code.value) <= IntMax
    ensures r.Ok? ==> r.value == DecimalValue(code.value)
  {
    match ParseDecimal(code, IntMin, IntMax)
    case Some(n) => Ok(n)
    case None => Fatal
  }

  /** A route whose short name is the decimal text of its number gets that
      number back as its id, for every number in the long range. */
  lemma RouteIdRoundTrip(n: int)
    requires LongMin <= n <= LongMax
    ensures RouteId(Some(DecimalString(n))) == Ok(n)
  {
    ParseDecimalRoundTrip(n, LongMin, LongMax);
  }

  /** The same for stop codes in the int range. */
  lemma StopIdRoundTrip(n: int)
    requires IntMin <= n <= IntMax
    ensures StopId(Some(DecimalString(n))) == Ok(n)
  {
    ParseDecimalRoundTrip(n, IntMin, IntMax);
  }

  // ---------------------------------------------------------------------
  // Long name

  /** The cleaning chain of `getRouteLongName`: slashes, numbers, street
      types, then the final label pass. */
  function CleanLongName(cu: CleanUtils, s: string): string {
    cu.cleanLabel(cu.cleanStreetTypes(cu.cleanNumbers(cu.cleanSlashes(s))))
  }

  /** `getRouteLongName`: the route long name when it is not empty, else the
      route description; when both are empty the run ends. */
  function RouteLongName(cu: CleanUtils, longName: Option<string>, desc: Option<string>): (r: Result<string>)
    ensures r.Fatal? <==> IsEmpty(longName) && IsEmpty(desc)
    ensures !IsEmpty(longName) ==> r == Ok(CleanLongName(cu, longName.value))
    ensures IsEmpty(longName) && !IsEmpty(desc) ==> r == Ok(CleanLongName(cu, desc.value))
  {
    var name := if IsEmpty(longName) then desc else longName;
    if IsEmpty(name) then Fatal else Ok(CleanLongName(cu, name.value))
  }

  // ---------------------------------------------------------------------
  // Color

  const Color3FA0D6: string := "3FA0D6"
  const Color7B9597: string := "7B9597"
  const ColorF17C15: string := "F17C15"

  /** The three groups of routes the switch colors, stated as sets. */
  const LightBlueRoutes: set<int> := {1, 5, 7, 8, 10, 11, 23}
  const GreyRoutes: set<int> := {2, 3, 4, 6, 9, 12, 13, 14, 15, 16, 17, 18, 19, 20, 21, 22, 24, 25, 27, 28, 29, 32, 90}
  const OrangeRoutes: set<int> := {97}

  /** The `switch (rsn)` of `getRouteColor`, case by case; `None` is its
      `default`. */
  function SwitchColor(rsn: int): Option<string> {
    match rsn
    case 1 => Some(Color3FA0D6)
    case 2 => Some(Color7B9597)
    case 3 => Some(Color7B9597)
    case 4 => Some(Color7B9597)
    case 5 => Some(Color3FA0D6)
    case 6 => Some(Color7B9597)
    case 7 => Some(Color3FA0D6)
    case 8 => Some(Color3FA0D6)
    case 9 => Some(Color7B9597)
    case 10 => Some(Color3FA0D6)
    case 11 => Some(Color3FA0D6)
    case 12 => Some(Color7B9597)
    case 13 => Some(Color7B9597)
    case 14 => Some(Color7B9597)
    case 15 => Some(Color7B9597)
    case 16 => Some(Color7B9597)
    case 17 => Some(Color7B9597)
    case 18 => Some(Color7B9597)
    case 19 => Some(Color7B9597)
    case 20 => Some(Color7B9597)
    case 21 => Some(Color7B9597)
    case 22 => Some(Color7B9597)
    case 23 => Some(Color3FA0D6)
    case 24 => Some(Color7B9597)
    case 25 => Some(Color7B9597)
    case 27 => Some(Color7B9597)
    case 28 => Some(Color7B9597)
    case 29 => Some(Color7B9597)
    case 32 => Some(Color7B9597)
    case 90 => Some(Color7B9597)
    case 97 => Some(ColorF17C15)
    case _ => None
  }

  /** The switch agrees with the three route groups: a route gets a color
      exactly when it is in one group, and the group decides which. */
  lemma SwitchColorGroups(rsn: int)
    ensures SwitchColor(rsn) == Some(Color3FA0D6) <==> rsn in LightBlueRoutes
    ensures SwitchColor(rsn) == Some(Color7B9597) <==> rsn in GreyRoutes
    ensures SwitchColor(rsn) == Some(ColorF17C15) <==> rsn in OrangeRoutes
    ensures SwitchColor(rsn).None? <==> rsn !in LightBlueRoutes + GreyRoutes + OrangeRoutes
  {
  }

  /** `getRouteColor`: a color given by the feed is left to the default
      implementation (`superColor`); without one, the short name is parsed with
      `Integer.parseInt` and looked up in the switch, and both a malformed
      short name and an unlisted route end the run. */
  function RouteColor(feedColor: Option<string>, shortName: Option<string>, superColor: string): (r: Result<string>)
    ensures !IsEmpty(feedColor) ==> r == Ok(superColor)
    ensures IsEmpty(feedColor) && r.Ok? ==>
      shortName.Some? && IsDecimal(shortName.value) && SwitchColor(DecimalValue(shortName.value)) == Some(r.value)
    ensures IsEmpty(feedColor) && (shortName.None? || !IsDecimal(shortName.value)) ==> r.Fatal?
    ensures IsEmpty(feedColor) ==>
      (r.Ok? <==> shortName.Some? && IsDecimal(shortName.value) && IntMin <= DecimalValue(shortName.value) <= IntMax
                  && SwitchColor(DecimalValue(shortName.value)).Some?)
    ensures IsEmpty(feedColor) && r.Ok? ==> r.value in {Color3FA0D6, Color7B9597, ColorF17C15}
  {
    if !IsEmpty(feedColor) then Ok(superColor)
    else
      match ParseDecimal(shortName, IntMin, IntMax)
      case None => Fatal
      case Some(rsn) =>
        match SwitchColor(rsn)
        case Some(c) => Ok(c)
        case None => Fatal
  }

  /** With no feed color, a route numbered in one of the groups gets the
      group's color, and any other number ends the run (26 and 88 among them). */
  lemma RouteColorByNumber(n: int, superColor: string)
    requires IntMin <= n <= IntMax
    ensures RouteColor(None, Some(DecimalString(n)), superColor) ==
      if n in LightBlueRoutes then Ok(Color3FA0D6)
      else if n in GreyRoutes then Ok(Color7B9597)
      else if n in OrangeRoutes then Ok(ColorF17C15)
      else Fatal
  {
    ParseDecimalRoundTrip(n, IntMin, IntMax);
    SwitchColorGroups(n);
  }
}
