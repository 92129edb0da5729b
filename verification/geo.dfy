/** A point on the globe in degrees. Neither constructor nor consumer checks
    the ranges [-90, 90] and [-180, 180]. */
module Geo {
  datatype Coordinates = Coordinates(latitude: real, longitude: real)

  predicate OnGlobe(c: Coordinates) {
    -90.0 <= c.latitude <= 90.0 && -180.0 <= c.longitude <= 180.0
  }
}
