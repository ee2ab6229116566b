/** A WGS 84 coordinate in fixed point: latitude and longitude in tenths of a micro-degree. */
module Wgs84 {
  import opened Failures

  const MAX_LATITUDE: int := 900000000
  const MIN_LATITUDE: int := -MAX_LATITUDE
  const MAX_LONGITUDE: int := 1800000000
  const MIN_LONGITUDE: int := -MAX_LONGITUDE

  /** A Java `int`. */
  type Int32 = x: int | -0x8000_0000 <= x < 0x8000_0000

  predicate InRange(latitude: int, longitude: int) {
    && MIN_LATITUDE <= latitude <= MAX_LATITUDE
    && MIN_LONGITUDE <= longitude <= MAX_LONGITUDE
  }

  /** The two final fields of a point; the getters are the field selectors. */
  datatype Point = Point(latitude: int, longitude: int)

  /** A point that passed the constructor's range check. */
  type Wgs84Point = p: Point | InRange(p.latitude, p.longitude) witness Point(0, 0)

  /** The integer constructor: the latitude is checked first, then the longitude; both ranges are closed. */
  function NewWgs84Point(latitude: Int32, longitude: Int32): (r: Result<Wgs84Point>)
    ensures r.Success? <==> InRange(latitude, longitude)
    ensures r.Success? ==> r.value.latitude == latitude && r.value.longitude == longitude
    ensures r.Failure? && !(MIN_LATITUDE <= latitude <= MAX_LATITUDE) ==> r.error == InvalidLatitude
    ensures r.Failure? && MIN_LATITUDE <= latitude <= MAX_LATITUDE ==> r.error == InvalidLongitude
  {
    if latitude > MAX_LATITUDE || latitude < MIN_LATITUDE then
      Failure(InvalidLatitude)
    else if longitude > MAX_LONGITUDE || longitude < MIN_LONGITUDE then
      Failure(InvalidLongitude)
    else
      Success(Point(latitude, longitude))
  }

  /** `equals`: both fixed-point fields agree, which is exactly value equality of points. */
  function Equals(p: Wgs84Point, q: Wgs84Point): (r: bool)
    ensures r <==> p == q
  {
    p.latitude == q.latitude && p.longitude == q.longitude
  }

  /** The bounds are inclusive: ±90° and ±180° are accepted, one unit beyond is refused. */
  lemma BoundsAreInclusive()
    ensures NewWgs84Point(MAX_LATITUDE, 0).Success? && NewWgs84Point(MIN_LATITUDE, 0).Success?
    ensures NewWgs84Point(0, MAX_LONGITUDE).Success? && NewWgs84Point(0, MIN_LONGITUDE).Success?
    ensures NewWgs84Point(MAX_LATITUDE + 1, 0) == Failure(InvalidLatitude)
    ensures NewWgs84Point(MIN_LATITUDE - 1, 0) == Failure(InvalidLatitude)
    ensures NewWgs84Point(0, MAX_LONGITUDE + 1) == Failure(InvalidLongitude)
    ensures NewWgs84Point(0, MIN_LONGITUDE - 1) == Failure(InvalidLongitude)
  {
  }
}
