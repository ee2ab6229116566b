/** Error kinds of the library and the result type its fallible operations return. */
module Failures {

  /** Each kind stands for one `IllegalArgumentException` (or index exception) of the library. */
  datatype Error =
    | InvalidLatitude      // Wgs84Point: latitude outside [-90°, 90°]
    | InvalidLongitude     // Wgs84Point: longitude outside [-180°, 180°]
    | InvalidDepth         // createFromPoint: depth outside [1, MAX_DEPTH]
    | InvalidQuadTree      // a string that fails isValid
    | NotDeepEnough        // a shift or getNeighbors on an invalid or too shallow string
    | InvalidMinimized     // toLetterRepresentation: negative value or depth field above MAX_DEPTH
    | IndexOutOfBounds     // String.substring with a negative end index

  datatype Result<+T> = Success(value: T) | Failure(error: Error)
}
