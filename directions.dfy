/** The direction tags of `StrategicMappingCommons` that the agency tools hand
    out, and the pairs they come in. */
module Directions {

  datatype Direction =
    | North | South | East | West
    | Inbound | Outbound
    | Clockwise0 | Clockwise1
    | CounterClockwise0 | CounterClockwise1

  /** `a` and `b` are the two tags of one direction-pair convention. */
  predicate Opposite(a: Direction, b: Direction) {
    match a
    case North => b == South
    case South => b == North
    case East => b == West
    case West => b == East
    case Inbound => b == Outbound
    case Outbound => b == Inbound
    case Clockwise0 => b == Clockwise1
    case Clockwise1 => b == Clockwise0
    case CounterClockwise0 => b == CounterClockwise1
    case CounterClockwise1 => b == CounterClockwise0
  }
}
