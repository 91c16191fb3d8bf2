/** The static transit data every component reads: five stops, four routes, four live buses. */
module MockData {
  import opened Transport

  const CityBusStand := BusStop("1", "City Bus Stand", "CBS001", LatLng(23.2599, 77.4126),
    ["R1", "R2", "R3"], ["shelter", "seating", "water"])
  const RailwayStation := BusStop("2", "Railway Station", "RWS002", LatLng(23.2665, 77.4005),
    ["R1", "R4"], ["shelter", "seating", "toilet", "water"])
  const GovernmentHospital := BusStop("3", "Government Hospital", "GH003", LatLng(23.2456, 77.4234),
    ["R2", "R3"], ["shelter", "seating"])
  const CollegeSquare := BusStop("4", "College Square", "CS004", LatLng(23.2789, 77.3987),
    ["R1", "R2", "R4"], ["shelter", "seating", "shops"])
  const MarketArea := BusStop("5", "Market Area", "MA005", LatLng(23.2543, 77.4156),
    ["R3", "R4"], ["shelter", "seating", "shops", "water"])

  const MockBusStops: seq<BusStop> :=
    [CityBusStand, RailwayStation, GovernmentHospital, CollegeSquare, MarketArea]

  const CityCircle := BusRoute("R1", "City Circle", "101", "#3B82F6",
    [CityBusStand, RailwayStation, CollegeSquare], 15, OperatingHours("06:00", "22:00"), 10)
  const HospitalRoute := BusRoute("R2", "Hospital Route", "102", "#10B981",
    [CityBusStand, GovernmentHospital, CollegeSquare], 20, OperatingHours("06:30", "21:30"), 8)
  const MarketExpress := BusRoute("R3", "Market Express", "103", "#F59E0B",
    [CityBusStand, GovernmentHospital, MarketArea], 12, OperatingHours("07:00", "20:00"), 12)
  const StationConnector := BusRoute("R4", "Station Connector", "104", "#EF4444",
    [RailwayStation, CollegeSquare, MarketArea], 25, OperatingHours("06:00", "23:00"), 15)

  const MockBusRoutes: seq<BusRoute> := [CityCircle, HospitalRoute, MarketExpress, StationConnector]

  const MockLiveBuses: seq<LiveBus> := [
    LiveBus("BUS001", "R1", LatLng(23.2632, 77.4065), "2", 3, Medium, -2),
    LiveBus("BUS002", "R1", LatLng(23.2723, 77.4012), "4", 7, High, 5),
    LiveBus("BUS003", "R2", LatLng(23.2511, 77.4191), "3", 12, Low, 0),
    LiveBus("BUS004", "R3", LatLng(23.2578, 77.4142), "5", 5, Medium, 3)
  ]

  /** Stop identifiers are pairwise distinct, and so are route identifiers. */
  lemma IdsDistinct()
    ensures forall i, j :: 0 <= i < j < |MockBusStops| ==> MockBusStops[i].id != MockBusStops[j].id
    ensures forall i, j :: 0 <= i < j < |MockBusRoutes| ==> MockBusRoutes[i].id != MockBusRoutes[j].id
  {
  }

  /** Every route visits only fixture stops, and none twice. */
  lemma RouteStopsWellFormed()
    ensures forall r, s :: r in MockBusRoutes && s in r.stops ==> s in MockBusStops
    ensures forall r, i, j :: r in MockBusRoutes && 0 <= i < j < |r.stops| ==> r.stops[i] != r.stops[j]
  {
  }

  /** A stop lists a route exactly when that route visits the stop. */
  lemma StopRoutesMatchRouteStops()
    ensures forall s, r :: s in MockBusStops && r in MockBusRoutes ==> (r.id in s.routes <==> s in r.stops)
  {
  }

  /** Every live bus runs on an existing route, and its next stop lies on that route. */
  lemma LiveBusesReferToRoutes()
    ensures forall b :: b in MockLiveBuses ==>
      exists r :: r in MockBusRoutes && r.id == b.routeId && exists s :: s in r.stops && s.id == b.nextStopId
  {
  }

  /** Arrival estimates are non-negative; fares and frequencies are positive. */
  lemma FiguresInRange()
    ensures forall b :: b in MockLiveBuses ==> b.estimatedArrival >= 0
    ensures forall r :: r in MockBusRoutes ==> r.fare > 0 && r.frequency > 0
  {
  }
}
