/**
 * The plain records the curation logic works on: a coordinate and the parts
 * of a MapKit map item it reads. Search results arrive as sequences of map
 * items; the search itself is not part of this model.
 */
module MapKitTypes {
  import opened Wrappers
  import opened PoiCategoryDisplay

  /** A latitude/longitude pair in degrees. */
  datatype Coordinate = Coordinate(latitude: real, longitude: real)

  /** `CLLocation.distance(from:)` in meters, passed in as a function. */
  type DistanceFunction = (Coordinate, Coordinate) -> real

  /** An `MKMapItem`: its name, location, place identifier (the raw value of
      `identifier`), point-of-interest category and the city line of its
      address. */
  datatype MapItem = MapItem(
    name: Option<string>,
    coordinate: Coordinate,
    identifier: Option<string>,
    category: Option<Category>,
    cityWithContext: Option<string>)
}
