/** Failure-carrying results shared by every part of the board engine.

The game signals misuse by throwing `ArgumentException` (bad size, bad
direction, bad placement type, bad ruleset) or by the runtime's own
exceptions (an array index out of range, a missing dictionary key). Each of
these becomes a value of `Error` here.
 */
module Base {

  datatype Option<+T> = None | Some(value: T)

  datatype Error =
    | InvalidSize          // board size outside [10, 26]
    | UnsupportedVersion   // ruleset other than 1990 or 2002
    | InvalidDirection     // placement direction other than ^ v < >
    | InvalidPlacementType // placement type other than "random" / "custom"
    | OutOfBounds          // array index outside the grid
    | UnknownShipId        // ship-id lookup in the id -> name table failed
    | AttemptsExhausted    // the supplied placement proposals ran out

  datatype Result<+T> = Ok(value: T) | Err(error: Error)
}
