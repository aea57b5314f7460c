/**
 * Value types supplied by the location provider (the gpsUtil library):
 * coordinates, timestamped check-ins and points of interest.
 * They are immutable in the source, so they are datatypes here.
 */
module GpsTypes {

  /** An opaque identifier (java.util.UUID). */
  type Uuid = int

  /** A reward value as the points provider returns it: a non-negative Java int. */
  type Points = x: int | 0 <= x <= 0x7FFF_FFFF

  /** A coordinate in degrees. */
  datatype Location = Location(latitude: real, longitude: real)

  /** A check-in: whose it is, where it was and when (milliseconds). */
  datatype VisitedLocation = VisitedLocation(userId: Uuid, location: Location, timeVisited: int)

  /** A point of interest: identifier, display name and coordinate. */
  datatype Attraction = Attraction(attractionId: Uuid, attractionName: string, location: Location)
}
