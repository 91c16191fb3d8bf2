/**
 * The helpers of the live-bus panel: lookup of a bus's route and next stop by
 * id, the occupancy dot colour, and the colour and text of the delay badge.
 * The panel reads the fixture lists; here they are parameters, so the lookups
 * are stated for any list and then applied to the fixture.
 */
module LiveMap {
  import opened Wrappers
  import opened Transport
  import opened Lists
  import opened Strings
  import MockData

  /** `routes.find(route => route.id === routeId)`: the first route with that id, if any. */
  function GetRouteInfo(routes: seq<BusRoute>, routeId: string): (r: Option<BusRoute>)
    ensures r.None? <==> forall j :: 0 <= j < |routes| ==> routes[j].id != routeId
    ensures r.Some? ==> r.value in routes && r.value.id == routeId
    ensures r.Some? ==> exists k :: 0 <= k < |routes| && routes[k] == r.value &&
                                    forall j :: 0 <= j < k ==> routes[j].id != routeId
  {
    var p := (route: BusRoute) => route.id == routeId;
    var found := Find(p, routes);
    if found.Some? then
      var k := FirstIndex(p, routes).value;
      assert routes[k] == found.value && forall j :: 0 <= j < k ==> !p(routes[j]);
      found
    else
      found
  }

  /** `stops.find(stop => stop.id === stopId)`: the first stop with that id, if any. */
  function GetStopInfo(stops: seq<BusStop>, stopId: string): (r: Option<BusStop>)
    ensures r.None? <==> forall j :: 0 <= j < |stops| ==> stops[j].id != stopId
    ensures r.Some? ==> r.value in stops && r.value.id == stopId
    ensures r.Some? ==> exists k :: 0 <= k < |stops| && stops[k] == r.value &&
                                    forall j :: 0 <= j < k ==> stops[j].id != stopId
  {
    var p := (stop: BusStop) => stop.id == stopId;
    var found := Find(p, stops);
    if found.Some? then
      var k := FirstIndex(p, stops).value;
      assert stops[k] == found.value && forall j :: 0 <= j < k ==> !p(stops[j]);
      found
    else
      found
  }

  /** With distinct ids, looking up a route's own id gives back that route. */
  lemma GetRouteInfoOfMember(routes: seq<BusRoute>, k: nat)
    requires k < |routes|
    requires forall i, j :: 0 <= i < j < |routes| ==> routes[i].id != routes[j].id
    ensures GetRouteInfo(routes, routes[k].id) == Some(routes[k])
  {
    var r := GetRouteInfo(routes, routes[k].id);
    assert r.Some?;
    var k' :| 0 <= k' < |routes| && routes[k'] == r.value &&
              forall j :: 0 <= j < k' ==> routes[j].id != routes[k].id;
    assert k' == k;
  }

  /** With distinct ids, looking up a stop's own id gives back that stop. */
  lemma GetStopInfoOfMember(stops: seq<BusStop>, k: nat)
    requires k < |stops|
    requires forall i, j :: 0 <= i < j < |stops| ==> stops[i].id != stops[j].id
    ensures GetStopInfo(stops, stops[k].id) == Some(stops[k])
  {
    var r := GetStopInfo(stops, stops[k].id);
    assert r.Some?;
    var k' :| 0 <= k' < |stops| && stops[k'] == r.value &&
              forall j :: 0 <= j < k' ==> stops[j].id != stops[k].id;
    assert k' == k;
  }

  /** On the fixture, every live bus finds its route and its next stop. */
  lemma LiveBusesResolve()
    ensures forall i :: 0 <= i < |MockData.MockLiveBuses| ==>
      GetRouteInfo(MockData.MockBusRoutes, MockData.MockLiveBuses[i].routeId).Some? &&
      GetStopInfo(MockData.MockBusStops, MockData.MockLiveBuses[i].nextStopId).Some?
  {
    var buses, routes, stops := MockData.MockLiveBuses, MockData.MockBusRoutes, MockData.MockBusStops;
    forall i | 0 <= i < |buses|
      ensures GetRouteInfo(routes, buses[i].routeId).Some?
      ensures GetStopInfo(stops, buses[i].nextStopId).Some?
    {
      if i == 0 {
        assert routes[0].id == buses[0].routeId && stops[1].id == buses[0].nextStopId;
      } else if i == 1 {
        assert routes[0].id == buses[1].routeId && stops[3].id == buses[1].nextStopId;
      } else if i == 2 {
        assert routes[1].id == buses[2].routeId && stops[2].id == buses[2].nextStopId;
      } else {
        assert routes[2].id == buses[3].routeId && stops[4].id == buses[3].nextStopId;
      }
    }
  }

  // ---------------------------------------------------------------------------
  // Occupancy

  /** `getOccupancyColor`: the dot colour for an occupancy string; unknown values are gray. */
  function OccupancyColor(occupancy: string): (c: string)
    ensures c == "bg-green-500" <==> occupancy == "low"
    ensures c == "bg-yellow-500" <==> occupancy == "medium"
    ensures c == "bg-red-500" <==> occupancy == "high"
    ensures c == "bg-gray-500" <==> occupancy !in {"low", "medium", "high"}
  {
    match occupancy
    case "low" => "bg-green-500"
    case "medium" => "bg-yellow-500"
    case "high" => "bg-red-500"
    case _ => "bg-gray-500"
  }

  /** A bus record never falls to the gray default, and distinct levels get distinct colours. */
  lemma OccupancyColorOfRecord(a: Occupancy, b: Occupancy)
    ensures OccupancyColor(OccupancyName(a)) != "bg-gray-500"
    ensures a != b ==> OccupancyColor(OccupancyName(a)) != OccupancyColor(OccupancyName(b))
  {
    if a != b && OccupancyColor(OccupancyName(a)) == OccupancyColor(OccupancyName(b)) {
      OccupancyNameInjective(a, b);
    }
  }

  // ---------------------------------------------------------------------------
  // Delay

  /** `getDelayColor`: green when on time or early, yellow up to five minutes late, red beyond. */
  function DelayColor(delay: int): (c: string)
    ensures c == "text-green-600" <==> delay <= 0
    ensures c == "text-yellow-600" <==> 0 < delay <= 5
    ensures c == "text-red-600" <==> delay > 5
  {
    if delay <= 0 then "text-green-600"
    else if delay <= 5 then "text-yellow-600"
    else "text-red-600"
  }

  /** How alarming a delay colour is: green 0, yellow 1, red 2. */
  function Severity(c: string): nat
  {
    if c == "text-green-600" then 0 else if c == "text-yellow-600" then 1 else 2
  }

  /** A later bus never gets a calmer colour. */
  lemma DelayColorMonotone(d1: int, d2: int)
    requires d1 <= d2
    ensures Severity(DelayColor(d1)) <= Severity(DelayColor(d2))
  {
  }

  /**
   * The inline delay badge: absent for a bus on time, `+N min` for a late bus
   * and `-N min` for an early one; `parseInt` of the text gives the delay back.
   */
  function DelayLabel(delay: int): (r: Option<string>)
    ensures r.None? <==> delay == 0
    ensures r.Some? ==> ParseInt(r.value) == Some(delay)
    ensures r.Some? ==> |r.value| > 0 && (r.value[0] == '+' <==> delay > 0) && (r.value[0] == '-' <==> delay < 0)
    ensures r.Some? ==> EndsWith(r.value, " min")
    ensures delay > 0 ==> r == Some("+" + NatToString(delay) + " min")
    ensures delay < 0 ==> r == Some("-" + NatToString(-delay) + " min")
  {
    if delay == 0 then None
    else if delay > 0 then
      ParseIntOfPlusRendered(delay, " min");
      EndsWithConcat("+" + NatToString(delay), " min");
      Some("+" + NatToString(delay) + " min")
    else
      ParseIntOfRendered(delay, " min");
      EndsWithConcat(IntToString(delay), " min");
      Some(IntToString(delay) + " min")
  }

  /** Whenever the badge is shown in green, the bus is early. */
  lemma GreenBadgeMeansEarly(delay: int)
    requires DelayLabel(delay).Some? && DelayColor(delay) == "text-green-600"
    ensures delay < 0 && DelayLabel(delay).value[0] == '-'
  {
  }
}
