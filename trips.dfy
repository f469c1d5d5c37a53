/** The part of an `MTrip` that the headsign resolver and merger change. */
module Trips {
  import opened Directions

  /** A trip of the output model: the route it belongs to, its headsign label and
      its direction tag. */
  class MTrip {
    const routeId: int
    var headsignValue: string
    var headsignId: Direction

    constructor(routeId: int, headsignValue: string, headsignId: Direction)
      ensures this.routeId == routeId
      ensures this.headsignValue == headsignValue && this.headsignId == headsignId
    {
      this.routeId := routeId;
      this.headsignValue := headsignValue;
      this.headsignId := headsignId;
    }

    /** `setHeadsignString(value, id)`: a string headsign with the given direction. */
    method SetHeadsignString(value: string, id: Direction)
      modifies this
      ensures headsignValue == value && headsignId == id
    {
      headsignValue := value;
      headsignId := id;
    }
  }
}
