/**
 * The text of the map's info windows: the routes line of a stop window, and
 * the title, route name, next stop, occupancy colour and delay text and colour
 * of a bus window. The map, its markers and the window lifecycle are not part
 * of this model; only the strings placed into the windows are.
 */
module GoogleMap {
  import opened Wrappers
  import opened Transport
  import opened Lists
  import opened Strings
  import LiveMap
  import MockData

  // ---------------------------------------------------------------------------
  // Stop window: the routes line

  /** One entry of the routes line: `Route <number> (<name>)`, or the raw id when no route has it. */
  function RouteEntry(routes: seq<BusRoute>, routeId: string): (e: string)
    ensures (forall j :: 0 <= j < |routes| ==> routes[j].id != routeId) ==> e == routeId
    ensures forall k :: 0 <= k < |routes| && routes[k].id == routeId &&
                        (forall j :: 0 <= j < k ==> routes[j].id != routeId) ==>
                        e == "Route " + routes[k].number + " (" + routes[k].name + ")"
  {
    var found := LiveMap.GetRouteInfo(routes, routeId);
    if found.None? then routeId
    else
      var route := found.value;
      assert forall k :: (0 <= k < |routes| && routes[k].id == routeId &&
                          (forall j :: 0 <= j < k ==> routes[j].id != routeId)) ==> routes[k] == route;
      "Route " + route.number + " (" + route.name + ")"
  }

  /** `stop.routes.map(...)`: one entry per route id, in the stop's order. */
  function RouteEntries(routes: seq<BusRoute>, routeIds: seq<string>): (es: seq<string>)
    ensures |es| == |routeIds|
    ensures forall i :: 0 <= i < |routeIds| ==> es[i] == RouteEntry(routes, routeIds[i])
  {
    if routeIds == [] then []
    else [RouteEntry(routes, routeIds[0])] + RouteEntries(routes, routeIds[1..])
  }

  /** The routes line: the entries joined with `<br>`. */
  function RoutesList(routes: seq<BusRoute>, routeIds: seq<string>): (r: string)
    ensures routeIds == [] ==> r == ""
    ensures |routeIds| == 1 ==> r == RouteEntry(routes, routeIds[0])
    ensures |routeIds| > 0 ==> StartsWith(r, RouteEntry(routes, routeIds[0]))
    ensures |routeIds| > 0 ==>
      |r| == TotalLength(RouteEntries(routes, routeIds)) + (|routeIds| - 1) * |"<br>"|
  {
    var es := RouteEntries(routes, routeIds);
    var r := Join(es, "<br>");
    assert |routeIds| > 0 ==> es[0] == RouteEntry(routes, routeIds[0]);
    r
  }

  /** The line for several ids is the first entry, a `<br>`, then the line for the rest. */
  lemma RoutesListCons(routes: seq<BusRoute>, routeId: string, more: seq<string>)
    requires more != []
    ensures RoutesList(routes, [routeId] + more) == RouteEntry(routes, routeId) + "<br>" + RoutesList(routes, more)
  {
    RouteEntriesCons(routes, routeId, more);
    JoinCons(RouteEntry(routes, routeId), RouteEntries(routes, more), "<br>");
  }

  lemma RouteEntriesCons(routes: seq<BusRoute>, routeId: string, more: seq<string>)
    ensures RouteEntries(routes, [routeId] + more) == [RouteEntry(routes, routeId)] + RouteEntries(routes, more)
  {
    var ids := [routeId] + more;
    assert ids[0] == routeId && ids[1..] == more;
  }

  /** Every route id listed by a fixture stop names a fixture route. */
  lemma StopRouteIdsResolve()
    ensures forall s, id :: s in MockData.MockBusStops && id in s.routes ==>
      exists k :: 0 <= k < |MockData.MockBusRoutes| && MockData.MockBusRoutes[k].id == id
  {
    var routes := MockData.MockBusRoutes;
    forall s, id | s in MockData.MockBusStops && id in s.routes
      ensures exists k :: 0 <= k < |routes| && routes[k].id == id
    {
      assert id in ["R1", "R2", "R3", "R4"];
      if id == "R1" { assert routes[0].id == id; }
      else if id == "R2" { assert routes[1].id == id; }
      else if id == "R3" { assert routes[2].id == id; }
      else { assert routes[3].id == id; }
    }
  }

  /** On the fixture no stop window shows a raw route id: every entry is a `Route ...` line. */
  lemma FixtureRoutesListHasNoRawIds(s: BusStop, i: nat)
    requires s in MockData.MockBusStops && i < |s.routes|
    ensures StartsWith(RouteEntries(MockData.MockBusRoutes, s.routes)[i], "Route ")
  {
    var id := s.routes[i];
    StopRouteIdsResolve();
    assert id in s.routes;
    KnownRouteEntry(MockData.MockBusRoutes, id);
  }

  /** An id that some route carries gets a `Route ...` entry, never the raw id. */
  lemma KnownRouteEntry(routes: seq<BusRoute>, routeId: string)
    requires exists k :: 0 <= k < |routes| && routes[k].id == routeId
    ensures StartsWith(RouteEntry(routes, routeId), "Route ")
  {
    var found := LiveMap.GetRouteInfo(routes, routeId);
    assert found.Some?;
    RouteLineStartsWithRoute(found.value);
  }

  lemma RouteLineStartsWithRoute(route: BusRoute)
    ensures StartsWith("Route " + route.number + " (" + route.name + ")", "Route ")
  {
    var e := "Route " + route.number + " (" + route.name + ")";
    assert e[..6] == "Route ";
  }

  // ---------------------------------------------------------------------------
  // Bus window

  /** JavaScript `value || fallback` on an optional string: `undefined` and `""` both fall back. */
  function OrElse(value: Option<string>, fallback: string): (r: string)
    ensures value.Some? && value.value != "" ==> r == value.value
    ensures value.None? || value.value == "" ==> r == fallback
  {
    if value.Some? && value.value != "" then value.value else fallback
  }

  /** The route number, when the bus's route is found. */
  function RouteNumber(routes: seq<BusRoute>, bus: LiveBus): Option<string>
  {
    match LiveMap.GetRouteInfo(routes, bus.routeId)
    case None => None
    case Some(route) => Some(route.number)
  }

  /** Title of the bus marker and heading of its window: `Bus <number>`, else `Bus <routeId>`. */
  function BusTitle(routes: seq<BusRoute>, bus: LiveBus): (t: string)
    ensures (forall j :: 0 <= j < |routes| ==> routes[j].id != bus.routeId) ==> t == "Bus " + bus.routeId
    ensures forall k :: 0 <= k < |routes| && routes[k].id == bus.routeId &&
                        (forall j :: 0 <= j < k ==> routes[j].id != bus.routeId) ==>
                        t == "Bus " + (if routes[k].number != "" then routes[k].number else bus.routeId)
  {
    var found := LiveMap.GetRouteInfo(routes, bus.routeId);
    assert forall k :: (0 <= k < |routes| && routes[k].id == bus.routeId &&
                        (forall j :: 0 <= j < k ==> routes[j].id != bus.routeId)) ==> found == Some(routes[k]);
    "Bus " + OrElse(RouteNumber(routes, bus), bus.routeId)
  }

  /** The route name line: the route's name, else `Unknown Route`. */
  function RouteNameLine(routes: seq<BusRoute>, bus: LiveBus): (n: string)
    ensures (forall j :: 0 <= j < |routes| ==> routes[j].id != bus.routeId) ==> n == "Unknown Route"
    ensures forall k :: 0 <= k < |routes| && routes[k].id == bus.routeId &&
                        (forall j :: 0 <= j < k ==> routes[j].id != bus.routeId) ==>
                        n == if routes[k].name != "" then routes[k].name else "Unknown Route"
  {
    var found := LiveMap.GetRouteInfo(routes, bus.routeId);
    assert forall k :: (0 <= k < |routes| && routes[k].id == bus.routeId &&
                        (forall j :: 0 <= j < k ==> routes[j].id != bus.routeId)) ==> found == Some(routes[k]);
    OrElse(if found.Some? then Some(found.value.name) else None, "Unknown Route")
  }

  /** The next-stop line: the stop's name, else `Unknown`. */
  function NextStopName(stops: seq<BusStop>, bus: LiveBus): (n: string)
    ensures (forall j :: 0 <= j < |stops| ==> stops[j].id != bus.nextStopId) ==> n == "Unknown"
    ensures forall k :: 0 <= k < |stops| && stops[k].id == bus.nextStopId &&
                        (forall j :: 0 <= j < k ==> stops[j].id != bus.nextStopId) ==>
                        n == if stops[k].name != "" then stops[k].name else "Unknown"
  {
    var found := LiveMap.GetStopInfo(stops, bus.nextStopId);
    assert forall k :: (0 <= k < |stops| && stops[k].id == bus.nextStopId &&
                        (forall j :: 0 <= j < k ==> stops[j].id != bus.nextStopId)) ==> found == Some(stops[k]);
    OrElse(if found.Some? then Some(found.value.name) else None, "Unknown")
  }

  /** `bus.occupancy === 'low' ? ... : bus.occupancy === 'medium' ? ... : ...`: anything else is red. */
  function OccupancyColor(occupancy: string): (c: string)
    ensures c == "#10B981" <==> occupancy == "low"
    ensures c == "#F59E0B" <==> occupancy == "medium"
    ensures c == "#EF4444" <==> occupancy != "low" && occupancy != "medium"
  {
    if occupancy == "low" then "#10B981"
    else if occupancy == "medium" then "#F59E0B"
    else "#EF4444"
  }

  /**
   * For the three recorded levels the window and the live panel agree on the
   * hue; for any other string the panel shows gray while the window shows red.
   */
  lemma OccupancyPalettesAgree(o: Occupancy, other: string)
    requires other !in {"low", "medium", "high"}
    ensures OccupancyColor(OccupancyName(o)) == "#10B981" <==> LiveMap.OccupancyColor(OccupancyName(o)) == "bg-green-500"
    ensures OccupancyColor(OccupancyName(o)) == "#F59E0B" <==> LiveMap.OccupancyColor(OccupancyName(o)) == "bg-yellow-500"
    ensures OccupancyColor(OccupancyName(o)) == "#EF4444" <==> LiveMap.OccupancyColor(OccupancyName(o)) == "bg-red-500"
    ensures OccupancyColor(other) == "#EF4444" && LiveMap.OccupancyColor(other) == "bg-gray-500"
  {
  }

  /** `Math.abs`. */
  function Abs(x: int): (r: nat)
    ensures r == x || r == -x
  {
    if x < 0 then -x else x
  }

  /** The late form `<d> min late`: it reads back as |d| and ends in nothing but ` min late`. */
  lemma LateText(delay: int)
    requires delay > 0
    ensures EndsWith(IntToString(delay) + " min late", " min late")
    ensures !EndsWith(IntToString(delay) + " min late", " min early")
    ensures IntToString(delay) + " min late" != "On time"
    ensures ParseInt(IntToString(delay) + " min late") == Some(Abs(delay))
  {
    var t := IntToString(delay) + " min late";
    assert Abs(delay) == delay;
    ParseIntOfRendered(delay, " min late");
    EndsWithConcat(IntToString(delay), " min late");
    assert t[|t| - 1] == 'e';
    assert t[|t| - 2] == 't';
  }

  /** The early form `<|d|> min early`: it reads back as |d| and ends in nothing but ` min early`. */
  lemma EarlyText(delay: int)
    requires delay < 0
    ensures EndsWith(NatToString(-delay) + " min early", " min early")
    ensures !EndsWith(NatToString(-delay) + " min early", " min late")
    ensures NatToString(-delay) + " min early" != "On time"
    ensures ParseInt(NatToString(-delay) + " min early") == Some(Abs(delay))
  {
    var n: nat := -delay;
    var t := NatToString(n) + " min early";
    ParseIntOfNatRendered(n, " min early");
    assert Abs(delay) == n;
    EndsWithConcat(NatToString(n), " min early");
    assert t[|t| - 1] == 'y';
  }

  lemma OnTimeText()
    ensures !EndsWith("On time", " min late") && !EndsWith("On time", " min early")
  {
  }

  /** The delay line: `On time`, `<d> min late` or `<|d|> min early`; the figure reads back as |delay|. */
  function DelayText(delay: int): (t: string)
    ensures t == "On time" <==> delay == 0
    ensures EndsWith(t, " min late") <==> delay > 0
    ensures EndsWith(t, " min early") <==> delay < 0
    ensures delay != 0 ==> ParseInt(t) == Some(Abs(delay))
    ensures delay != 0 ==> t == NatToString(Abs(delay)) + (if delay > 0 then " min late" else " min early")
  {
    if delay == 0 then
      OnTimeText();
      "On time"
    else if delay > 0 then
      LateText(delay);
      IntToString(delay) + " min late"
    else
      EarlyText(delay);
      NatToString(-delay) + " min early"
  }

  /** The delay colour: green when on time or early, amber up to five minutes late, red beyond. */
  function DelayColor(delay: int): (c: string)
    ensures c == "#10B981" <==> delay <= 0
    ensures c == "#F59E0B" <==> 0 < delay <= 5
    ensures c == "#EF4444" <==> delay > 5
  {
    if delay <= 0 then "#10B981"
    else if delay <= 5 then "#F59E0B"
    else "#EF4444"
  }

  /** The window and the live panel colour every delay in the same band. */
  lemma DelayPalettesAgree(delay: int)
    ensures DelayColor(delay) == "#10B981" <==> LiveMap.DelayColor(delay) == "text-green-600"
    ensures DelayColor(delay) == "#F59E0B" <==> LiveMap.DelayColor(delay) == "text-yellow-600"
    ensures DelayColor(delay) == "#EF4444" <==> LiveMap.DelayColor(delay) == "text-red-600"
  {
  }

  /** On the fixture every bus window shows the route's own number in its title. */
  lemma FixtureBusTitlesNeedNoFallback(i: nat)
    requires i < |MockData.MockLiveBuses|
    ensures exists route :: route in MockData.MockBusRoutes && route.id == MockData.MockLiveBuses[i].routeId &&
              BusTitle(MockData.MockBusRoutes, MockData.MockLiveBuses[i]) == "Bus " + route.number
    ensures BusTitle(MockData.MockBusRoutes, MockData.MockLiveBuses[i]) != "Bus " + MockData.MockLiveBuses[i].routeId
  {
    var routes, b := MockData.MockBusRoutes, MockData.MockLiveBuses[i];
    var k := if i < 2 then 0 else i - 1;
    assert routes[k].id == b.routeId && forall j :: 0 <= j < k ==> routes[j].id != b.routeId;
    assert routes[k].number != "" && routes[k].number != b.routeId;
    assert BusTitle(routes, b) == "Bus " + routes[k].number;
    assert ("Bus " + routes[k].number)[4..] != ("Bus " + b.routeId)[4..];
  }

  /** On the fixture no bus window shows `Unknown Route`. */
  lemma FixtureRouteNamesNeedNoFallback(i: nat)
    requires i < |MockData.MockLiveBuses|
    ensures RouteNameLine(MockData.MockBusRoutes, MockData.MockLiveBuses[i]) != "Unknown Route"
  {
    var routes, b := MockData.MockBusRoutes, MockData.MockLiveBuses[i];
    var k := if i < 2 then 0 else i - 1;
    assert routes[k].id == b.routeId && forall j :: 0 <= j < k ==> routes[j].id != b.routeId;
    assert routes[k].name != "" && routes[k].name != "Unknown Route";
  }

  /** On the fixture no bus window shows `Unknown` for the next stop. */
  lemma FixtureNextStopsNeedNoFallback(i: nat)
    requires i < |MockData.MockLiveBuses|
    ensures NextStopName(MockData.MockBusStops, MockData.MockLiveBuses[i]) != "Unknown"
  {
    var stops, b := MockData.MockBusStops, MockData.MockLiveBuses[i];
    var m := if i == 0 then 1 else if i == 1 then 3 else if i == 2 then 2 else 4;
    assert stops[m].id == b.nextStopId && forall j :: 0 <= j < m ==> stops[j].id != b.nextStopId;
    assert stops[m].name != "" && stops[m].name != "Unknown";
  }
}
