/**
 * The derived fields of a route card: the status colour computed from the
 * start of the operating hours and the clock hour, the Active/Inactive label,
 * the two-character number badge and the stop count. The clock hour
 * (`new Date().getHours()`) is a parameter.
 */
module RouteList {
  import opened Wrappers
  import opened Transport
  import opened Strings
  import MockData

  /** `parseInt(time.split(':')[0])`: the hour read from the text before the first colon. */
  function StartHour(time: string): (h: Option<int>)
    ensures ':' !in time ==> h == ParseInt(time)
    ensures forall k :: 0 <= k < |time| && time[k] == ':' && ':' !in time[..k] ==> h == ParseInt(time[..k])
  {
    BeforeFirstAt(time, ':');
    ParseInt(BeforeFirst(time, ':'))
  }

  /** An `HH:MM` time with two decimal digits before the colon yields those two digits' value. */
  lemma StartHourOfClock(time: string, a: char, b: char, minutes: string)
    requires '0' <= a <= '9' && '0' <= b <= '9'
    requires time == [a, b] + ":" + minutes
    ensures StartHour(time) == Some(10 * DigitOf(a) + DigitOf(b))
  {
    assert time[2] == ':' && ':' !in time[..2] && time[..2] == [a, b];
    assert StartHour(time) == ParseInt([a, b]);
    ParseTwoDigits(a, b);
  }

  /** The start hours of the fixture routes: 6, 6, 7 and 6. */
  lemma FixtureStartHours()
    ensures StartHour(MockData.CityCircle.operatingHours.start) == Some(6)
    ensures StartHour(MockData.HospitalRoute.operatingHours.start) == Some(6)
    ensures StartHour(MockData.MarketExpress.operatingHours.start) == Some(7)
    ensures StartHour(MockData.StationConnector.operatingHours.start) == Some(6)
  {
    CityCircleStartHour();
    HospitalRouteStartHour();
    MarketExpressStartHour();
    StationConnectorStartHour();
  }

  lemma CityCircleStartHour()
    ensures StartHour(MockData.CityCircle.operatingHours.start) == Some(6)
  {
    StartHourOfClock(MockData.CityCircle.operatingHours.start, '0', '6', "00");
  }

  lemma HospitalRouteStartHour()
    ensures StartHour(MockData.HospitalRoute.operatingHours.start) == Some(6)
  {
    StartHourOfClock(MockData.HospitalRoute.operatingHours.start, '0', '6', "30");
  }

  lemma MarketExpressStartHour()
    ensures StartHour(MockData.MarketExpress.operatingHours.start) == Some(7)
  {
    StartHourOfClock(MockData.MarketExpress.operatingHours.start, '0', '7', "00");
  }

  lemma StationConnectorStartHour()
    ensures StartHour(MockData.StationConnector.operatingHours.start) == Some(6)
  {
    StartHourOfClock(MockData.StationConnector.operatingHours.start, '0', '6', "00");
  }

  const Green := "text-green-600 bg-green-50"
  const Red := "text-red-600 bg-red-50"

  /**
   * `getStatusColor`: green from the start hour until 22:00, red otherwise; an
   * unreadable start hour (`NaN`) fails every comparison and gives red.
   */
  function StatusColor(time: string, currentHour: int): (c: string)
    ensures c == Green <==> StartHour(time).Some? && StartHour(time).value <= currentHour < 22
    ensures c == Red <==> !(StartHour(time).Some? && StartHour(time).value <= currentHour < 22)
  {
    match StartHour(time)
    case None => Red
    case Some(hour) => if currentHour >= hour && currentHour < 22 then Green else Red
  }

  /** The card's status colour: computed from the start of the operating hours only. */
  function RouteStatusColor(route: BusRoute, currentHour: int): (c: string)
    ensures c == Green <==> StartHour(route.operatingHours.start).Some? &&
                            StartHour(route.operatingHours.start).value <= currentHour < 22
    ensures c == Red <==> !(StartHour(route.operatingHours.start).Some? &&
                            StartHour(route.operatingHours.start).value <= currentHour < 22)
  {
    StatusColor(route.operatingHours.start, currentHour)
  }

  /** The end of the operating hours never changes the status colour. */
  lemma StatusIgnoresEnd(route: BusRoute, end: string, currentHour: int)
    ensures RouteStatusColor(route.(operatingHours := OperatingHours(route.operatingHours.start, end)), currentHour)
            == RouteStatusColor(route, currentHour)
  {
  }

  /** The card's label: `Active` between 06:00 and 22:00 whatever the route. */
  function ActiveLabel(currentHour: int): (l: string)
    ensures l == "Active" <==> 6 <= currentHour < 22
    ensures l == "Inactive" <==> !(6 <= currentHour < 22)
  {
    if currentHour >= 6 && currentHour < 22 then "Active" else "Inactive"
  }

  /** A green status implies an `Active` label for any route that starts at 06:00 or later. */
  lemma GreenMeansActive(route: BusRoute, currentHour: int)
    requires StartHour(route.operatingHours.start).Some? && StartHour(route.operatingHours.start).value >= 6
    requires RouteStatusColor(route, currentHour) == Green
    ensures ActiveLabel(currentHour) == "Active"
  {
  }

  /**
   * Label and colour can disagree: at 06:xx Market Express (from 07:00) is
   * labelled Active in red, and at 22:xx Station Connector (until 23:00) is
   * labelled Inactive in red.
   */
  lemma LabelAndStatusDisagree()
    ensures ActiveLabel(6) == "Active" && RouteStatusColor(MockData.MarketExpress, 6) == Red
    ensures ActiveLabel(22) == "Inactive" && RouteStatusColor(MockData.StationConnector, 22) == Red
  {
    FixtureStartHours();
  }

  /** `route.number.slice(-2)`: the last two characters, or all of a shorter number. */
  function Badge(number: string): (b: string)
    ensures |b| == if |number| < 2 then |number| else 2
    ensures EndsWith(number, b)
  {
    Slice(number, -2)
  }

  /** A number of at most two characters is its own badge. */
  lemma BadgeOfShort(number: string)
    requires |number| <= 2
    ensures Badge(number) == number
  {
  }

  /** The fixture badges are `01` to `04`. */
  lemma FixtureBadges()
    ensures Badge(MockData.CityCircle.number) == "01" && Badge(MockData.HospitalRoute.number) == "02"
    ensures Badge(MockData.MarketExpress.number) == "03" && Badge(MockData.StationConnector.number) == "04"
  {
  }

  /** `${route.stops.length} stops`: the count reads back as the number of stops. */
  function StopCountLabel(route: BusRoute): (l: string)
    ensures ParseInt(l) == Some(|route.stops|)
    ensures EndsWith(l, " stops")
  {
    var l := NatToString(|route.stops|) + " stops";
    ParseIntOfNatRendered(|route.stops|, " stops");
    EndsWithConcat(NatToString(|route.stops|), " stops");
    l
  }

  /** Every fixture route card shows three stops. */
  lemma FixtureStopCounts(route: BusRoute)
    requires route in MockData.MockBusRoutes
    ensures ParseInt(StopCountLabel(route)) == Some(3)
  {
    assert route == MockData.CityCircle || route == MockData.HospitalRoute ||
           route == MockData.MarketExpress || route == MockData.StationConnector;
    assert |route.stops| == 3;
  }
}
