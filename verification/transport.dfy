/** The records of the transit data: stops, routes and live buses. */
module Transport {

  /** A geographic position; the model never computes with it. */
  datatype LatLng = LatLng(lat: real, lng: real)

  datatype BusStop = BusStop(
    id: string,
    name: string,
    code: string,
    location: LatLng,
    routes: seq<string>,     // ids of the routes serving the stop
    amenities: seq<string>)

  datatype OperatingHours = OperatingHours(start: string, end: string)

  datatype BusRoute = BusRoute(
    id: string,
    name: string,
    number: string,
    color: string,
    stops: seq<BusStop>,     // in visiting order
    frequency: int,          // minutes
    operatingHours: OperatingHours,
    fare: int)

  datatype Occupancy = Low | Medium | High

  datatype LiveBus = LiveBus(
    id: string,
    routeId: string,
    currentLocation: LatLng,
    nextStopId: string,
    estimatedArrival: int,   // minutes
    occupancy: Occupancy,
    delay: int)              // minutes, positive late, negative early

  /** The string form of an occupancy level, as the record stores it. */
  function OccupancyName(o: Occupancy): (s: string)
    ensures s in {"low", "medium", "high"}
  {
    match o
    case Low => "low"
    case Medium => "medium"
    case High => "high"
  }

  /** Distinct levels have distinct names. */
  lemma OccupancyNameInjective(a: Occupancy, b: Occupancy)
    requires OccupancyName(a) == OccupancyName(b)
    ensures a == b
  {
  }
}
