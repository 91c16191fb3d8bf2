/**
 * The journey-search form: the stop suggestion filter, the route matcher, and
 * the form's state with its event handlers.
 */
module SearchModal {
  import opened Wrappers
  import opened Transport
  import opened Lists
  import opened Strings
  import MockData

  // ---------------------------------------------------------------------------
  // Stop suggestions

  /** The suggestion test: the lower-cased name contains the lower-cased query. */
  predicate MatchesQuery(stop: BusStop, query: string)
  {
    Includes(ToLowerCase(stop.name), ToLowerCase(query))
  }

  /** The stops suggested for `query`: those that pass the test, in their order in `stops`. */
  function Suggest(query: string, stops: seq<BusStop>): (r: seq<BusStop>)
    ensures forall i :: 0 <= i < |r| ==> MatchesQuery(r[i], query)
    ensures forall s :: s in stops && MatchesQuery(s, query) ==> s in r
    ensures IsSubsequence(r, stops)
  {
    FilterIsSubsequence(s => MatchesQuery(s, query), stops);
    Filter(s => MatchesQuery(s, query), stops)
  }

  /** Each matching stop is suggested as often as the stop list holds it, and no other stop is. */
  lemma SuggestCounts(query: string, stops: seq<BusStop>)
    ensures forall s :: multiset(Suggest(query, stops))[s] == if MatchesQuery(s, query) then multiset(stops)[s] else 0
  {
    FilterCounts(s => MatchesQuery(s, query), stops);
  }

  /** Queries that agree after lower-casing give the same suggestions: matching ignores case. */
  lemma SuggestIgnoresCase(q1: string, q2: string, stops: seq<BusStop>)
    requires ToLowerCase(q1) == ToLowerCase(q2)
    ensures Suggest(q1, stops) == Suggest(q2, stops)
  {
    FilterCongruent(s => MatchesQuery(s, q1), s => MatchesQuery(s, q2), stops);
  }

  /** A stop's own name, in any letter case, always suggests that stop. */
  lemma SuggestFindsOwnName(stop: BusStop, query: string, stops: seq<BusStop>)
    requires stop in stops && ToLowerCase(query) == ToLowerCase(stop.name)
    ensures stop in Suggest(query, stops)
  {
    assert OccursAt(ToLowerCase(stop.name), ToLowerCase(query), 0);
  }

  // ---------------------------------------------------------------------------
  // Exact-name lookup used by the search button

  /** The name test of the search: equal names once both are lower-cased. */
  predicate NameMatches(stop: BusStop, text: string)
  {
    ToLowerCase(stop.name) == ToLowerCase(text)
  }

  /** The first stop whose name equals `text` up to letter case, if there is one. */
  function ExactMatch(text: string, stops: seq<BusStop>): (r: Option<BusStop>)
    ensures r.None? <==> forall j :: 0 <= j < |stops| ==> !NameMatches(stops[j], text)
    ensures r.Some? ==> r.value in stops && NameMatches(r.value, text)
  {
    Find((s: BusStop) => NameMatches(s, text), stops)
  }

  /** The stop found is the first one in the list whose name matches. */
  lemma ExactMatchIsFirst(text: string, stops: seq<BusStop>)
    requires ExactMatch(text, stops).Some?
    ensures exists k :: 0 <= k < |stops| && stops[k] == ExactMatch(text, stops).value &&
                        forall j :: 0 <= j < k ==> !NameMatches(stops[j], text)
  {
    var p := (s: BusStop) => NameMatches(s, text);
    var k := FirstIndex(p, stops).value;
    assert stops[k] == ExactMatch(text, stops).value;
  }

  // ---------------------------------------------------------------------------
  // Route matching

  /** The route visits a stop with identifier `stopId`. */
  predicate ServesStop(route: BusRoute, stopId: string)
  {
    exists s :: s in route.stops && s.id == stopId
  }

  /** The route serves both ends of the journey (in either order). */
  predicate ServesBoth(route: BusRoute, fromId: string, toId: string)
  {
    ServesStop(route, fromId) && ServesStop(route, toId)
  }

  /** The routes offered for the selected stops: none until both are selected, then every
    * route that visits both stop identifiers, in the order of `routes`. */
  function FindRoutes(selectedFrom: Option<BusStop>, selectedTo: Option<BusStop>, routes: seq<BusRoute>)
    : (r: seq<BusRoute>)
    ensures selectedFrom.None? || selectedTo.None? ==> r == []
    ensures selectedFrom.Some? && selectedTo.Some? ==>
      (forall i :: 0 <= i < |r| ==> ServesBoth(r[i], selectedFrom.value.id, selectedTo.value.id)) &&
      (forall route :: route in routes && ServesBoth(route, selectedFrom.value.id, selectedTo.value.id) ==> route in r)
    ensures IsSubsequence(r, routes)
  {
    if selectedFrom.None? || selectedTo.None? then []
    else
      var fromId, toId := selectedFrom.value.id, selectedTo.value.id;
      FilterIsSubsequence(route => ServesBoth(route, fromId, toId), routes);
      Filter(route => ServesBoth(route, fromId, toId), routes)
  }

  /** The result list is never longer than the route list it was filtered from. */
  lemma FindRoutesBounded(selectedFrom: Option<BusStop>, selectedTo: Option<BusStop>, routes: seq<BusRoute>)
    ensures |FindRoutes(selectedFrom, selectedTo, routes)| <= |routes|
  {
    SubsequenceElements(FindRoutes(selectedFrom, selectedTo, routes), routes);
  }

  /** `filter` keeps duplicates: each serving route is offered as often as `routes` lists it. */
  lemma FindRoutesCounts(from: BusStop, to: BusStop, routes: seq<BusRoute>)
    ensures forall route :: multiset(FindRoutes(Some(from), Some(to), routes))[route]
                            == if ServesBoth(route, from.id, to.id) then multiset(routes)[route] else 0
  {
    FilterCounts(route => ServesBoth(route, from.id, to.id), routes);
  }

  /** When the routes serving both stops are exactly the first k, those k come back, in order. */
  lemma FindRoutesPrefix(from: BusStop, to: BusStop, routes: seq<BusRoute>, k: nat)
    requires k <= |routes|
    requires forall j :: 0 <= j < k ==> ServesBoth(routes[j], from.id, to.id)
    requires forall j :: k <= j < |routes| ==> !ServesBoth(routes[j], from.id, to.id)
    ensures FindRoutes(Some(from), Some(to), routes) == routes[..k]
  {
    FilterPrefix(route => ServesBoth(route, from.id, to.id), routes, k);
  }

  /** Swapping origin and destination gives the same routes: direction is never checked. */
  lemma FindRoutesSymmetric(a: Option<BusStop>, b: Option<BusStop>, routes: seq<BusRoute>)
    ensures FindRoutes(a, b, routes) == FindRoutes(b, a, routes)
  {
    if a.Some? && b.Some? {
      FilterCongruent(route => ServesBoth(route, a.value.id, b.value.id),
                      route => ServesBoth(route, b.value.id, a.value.id), routes);
    }
  }

  /** With the same stop at both ends, the result is every route visiting that stop. */
  lemma FindRoutesSameStop(a: BusStop, routes: seq<BusRoute>)
    ensures forall route :: route in FindRoutes(Some(a), Some(a), routes) <==> route in routes && ServesStop(route, a.id)
  {
  }

  /** Matching depends only on the stop identifiers, not on the rest of the stop records. */
  lemma FindRoutesById(a: BusStop, a': BusStop, b: BusStop, routes: seq<BusRoute>)
    requires a.id == a'.id
    ensures FindRoutes(Some(a), Some(b), routes) == FindRoutes(Some(a'), Some(b), routes)
  {
  }

  /** No routes are offered exactly when no route serves both selected stops. */
  lemma FindRoutesEmpty(a: BusStop, b: BusStop, routes: seq<BusRoute>)
    ensures FindRoutes(Some(a), Some(b), routes) == [] <==>
            forall route :: route in routes ==> !ServesBoth(route, a.id, b.id)
  {
    FilterEmpty(route => ServesBoth(route, a.id, b.id), routes);
  }

  // ---------------------------------------------------------------------------
  // Locations picked outside the stop list

  /** A place chosen through the external place search. */
  datatype PickedPlace = PickedPlace(lat: real, lng: real, address: string)

  /** The stop-shaped record made for a picked place; `now` is the clock reading in milliseconds. */
  function PlaceholderStop(place: PickedPlace, now: nat): (r: BusStop)
    ensures |r.id| > 7 && r.routes == []
  {
    BusStop("google_" + NatToString(now), place.address, "GOOGLE", LatLng(place.lat, place.lng), [], [])
  }

  /** The placeholder's identifier is `google_` followed by the clock reading, which reads back
    * from it; it carries the address as its name and serves no route and has no amenity. */
  lemma PlaceholderStopShape(place: PickedPlace, now: nat)
    ensures var s := PlaceholderStop(place, now);
      s.id[..7] == "google_" && ParseInt(s.id[7..]) == Some(now) &&
      s.name == place.address && s.code == "GOOGLE" && s.routes == [] && s.amenities == []
  {
    var s := PlaceholderStop(place, now);
    assert s.id[7..] == NatToString(now) + [];
    ParseIntOfRendered(now, []);
  }

  /** On the fixture, a placeholder stop at either end of the journey matches no route. */
  lemma PlaceholderFindsNoRoute(place: PickedPlace, now: nat, other: Option<BusStop>)
    ensures FindRoutes(Some(PlaceholderStop(place, now)), other, MockData.MockBusRoutes) == []
    ensures FindRoutes(other, Some(PlaceholderStop(place, now)), MockData.MockBusRoutes) == []
  {
    var p := PlaceholderStop(place, now);
    assert |p.id| > 1;
    forall route | route in MockData.MockBusRoutes ensures !ServesStop(route, p.id) {
      assert forall s :: s in route.stops ==> |s.id| == 1;
    }
    if other.Some? {
      FindRoutesEmpty(p, other.value, MockData.MockBusRoutes);
      FindRoutesSymmetric(Some(p), other, MockData.MockBusRoutes);
    }
  }

  // ---------------------------------------------------------------------------
  // Outcomes on the fixture

  /** A stop whose lower-cased name lacks a character of the lower-cased query is not suggested. */
  lemma MissingCharNoMatch(stop: BusStop, query: string, c: char)
    requires c in ToLowerCase(query) && c !in ToLowerCase(stop.name)
    ensures !MatchesQuery(stop, query)
  {
    if MatchesQuery(stop, query) {
      IncludesNeedsChar(ToLowerCase(stop.name), ToLowerCase(query), c);
    }
  }

  lemma CityBusStandNotRail()
    ensures !MatchesQuery(MockData.CityBusStand, "Rail")
  {
    assert ToLowerCase("Rail") == "rail";
    assert ToLowerCase(MockData.CityBusStand.name) == "city bus stand";
    MissingCharNoMatch(MockData.CityBusStand, "Rail", 'r');
  }

  lemma RailwayStationIsRail()
    ensures MatchesQuery(MockData.RailwayStation, "Rail")
  {
    assert ToLowerCase("Rail") == "rail";
    assert ToLowerCase(MockData.RailwayStation.name) == "railway station";
    assert "railway station"[..4] == "rail";
  }

  /** `government hospital` holds every letter of `rail`, but never as one block. */
  lemma GovernmentHospitalNotRail()
    ensures !MatchesQuery(MockData.GovernmentHospital, "Rail")
  {
    var name, query := ToLowerCase(MockData.GovernmentHospital.name), ToLowerCase("Rail");
    assert query == "rail";
    GovernmentHospitalLowerCase();
    NotIncludedAroundLoneStart(name, "gove", 'r', "nment hospital", query);
  }

  // The name is lowered in two pieces (`Gove` and `rnment Hospital`) and joined with
  // ToLowerCaseConcat: lowering the 19-character literal in one step is far costlier to prove.
  lemma GovernmentHospitalLowerCase()
    ensures ToLowerCase(MockData.GovernmentHospital.name) == "gove" + ['r'] + "nment hospital"
  {
    assert MockData.GovernmentHospital.name == "Gove" + "rnment Hospital";
    ToLowerCaseConcat("Gove", "rnment Hospital");
    LowerCaseGove();
    LowerCaseRnmentHospital();
  }

  lemma LowerCaseGove()
    ensures ToLowerCase("Gove") == "gove"
  {
  }

  lemma LowerCaseRnmentHospital()
    ensures ToLowerCase("rnment Hospital") == ['r'] + "nment hospital"
  {
  }

  lemma CollegeSquareNotRail()
    ensures !MatchesQuery(MockData.CollegeSquare, "Rail")
  {
    assert ToLowerCase("Rail") == "rail";
    assert ToLowerCase(MockData.CollegeSquare.name) == "college square";
    MissingCharNoMatch(MockData.CollegeSquare, "Rail", 'i');
  }

  lemma MarketAreaNotRail()
    ensures !MatchesQuery(MockData.MarketArea, "Rail")
  {
    assert ToLowerCase("Rail") == "rail";
    assert ToLowerCase(MockData.MarketArea.name) == "market area";
    MissingCharNoMatch(MockData.MarketArea, "Rail", 'i');
  }

  /** Typing `Rail` suggests Railway Station and nothing else. */
  lemma RailSuggestsStation()
    ensures Suggest("Rail", MockData.MockBusStops) == [MockData.RailwayStation]
  {
    var stops := MockData.MockBusStops;
    forall j | 0 <= j < |stops| && j != 1 ensures !MatchesQuery(stops[j], "Rail") {
      if j == 0 { CityBusStandNotRail(); }
      else if j == 2 { GovernmentHospitalNotRail(); }
      else if j == 3 { CollegeSquareNotRail(); }
      else { MarketAreaNotRail(); }
    }
    RailwayStationIsRail();
    FilterSingle(s => MatchesQuery(s, "Rail"), stops, 1);
  }

  /** A query of one space is not empty, so it filters, and every fixture name has a space. */
  lemma SpaceSuggestsEveryStop()
    ensures Suggest(" ", MockData.MockBusStops) == MockData.MockBusStops
  {
    var stops := MockData.MockBusStops;
    forall j | 0 <= j < |stops| ensures MatchesQuery(stops[j], " ") {
      var name := ToLowerCase(stops[j].name);
      assert ToLowerCase(" ") == " ";
      if j == 0 { assert OccursAt(name, " ", 4); }
      else if j == 1 { assert OccursAt(name, " ", 7); }
      else if j == 2 { assert OccursAt(name, " ", 10); }
      else if j == 3 { assert OccursAt(name, " ", 7); }
      else { assert OccursAt(name, " ", 6); }
    }
    FilterAll(s => MatchesQuery(s, " "), stops);
  }

  /** City Bus Stand to Railway Station: only City Circle (R1) serves both. */
  lemma CityBusStandToRailwayStation()
    ensures FindRoutes(Some(MockData.CityBusStand), Some(MockData.RailwayStation), MockData.MockBusRoutes)
            == [MockData.CityCircle]
  {
    var routes := MockData.MockBusRoutes;
    assert MockData.RailwayStation in routes[0].stops;
    FilterSingle(route => ServesBoth(route, "1", "2"), routes, 0);
  }

  /** City Bus Stand to College Square: City Circle (R1) and Hospital Route (R2), in that order. */
  lemma RoutesFromStandToCollege()
    ensures ServesBoth(MockData.CityCircle, "1", "4") && ServesBoth(MockData.HospitalRoute, "1", "4")
    ensures !ServesBoth(MockData.MarketExpress, "1", "4") && !ServesBoth(MockData.StationConnector, "1", "4")
  {
    assert MockData.CityBusStand in MockData.CityCircle.stops && MockData.CollegeSquare in MockData.CityCircle.stops;
    assert MockData.CityBusStand in MockData.HospitalRoute.stops && MockData.CollegeSquare in MockData.HospitalRoute.stops;
  }

  lemma CollegeSquareRoutesLeadTheList()
    ensures FindRoutes(Some(MockData.CityBusStand), Some(MockData.CollegeSquare), MockData.MockBusRoutes)
            == MockData.MockBusRoutes[..2]
  {
    var routes := MockData.MockBusRoutes;
    RoutesFromStandToCollege();
    forall j | 0 <= j < 2 ensures ServesBoth(routes[j], "1", "4") {
      if j == 0 { assert routes[0] == MockData.CityCircle; } else { assert routes[1] == MockData.HospitalRoute; }
    }
    forall j | 2 <= j < |routes| ensures !ServesBoth(routes[j], "1", "4") {
      if j == 2 { assert routes[2] == MockData.MarketExpress; } else { assert routes[3] == MockData.StationConnector; }
    }
    FindRoutesPrefix(MockData.CityBusStand, MockData.CollegeSquare, routes, 2);
  }

  lemma FirstTwoRoutes()
    ensures MockData.MockBusRoutes[..2] == [MockData.CityCircle, MockData.HospitalRoute]
  {
  }

  lemma CityBusStandToCollegeSquare()
    ensures FindRoutes(Some(MockData.CityBusStand), Some(MockData.CollegeSquare), MockData.MockBusRoutes)
            == [MockData.CityCircle, MockData.HospitalRoute]
  {
    CollegeSquareRoutesLeadTheList();
    FirstTwoRoutes();
  }

  // ---------------------------------------------------------------------------
  // The form

  class JourneySearch {
    const stops: seq<BusStop>
    const routes: seq<BusRoute>
    var from: string
    var to: string
    var showResults: bool
    var fromSuggestions: seq<BusStop>
    var toSuggestions: seq<BusStop>
    var selectedFrom: Option<BusStop>
    var selectedTo: Option<BusStop>
    var showFromSuggestions: bool
    var showToSuggestions: bool

    /** Suggestion lists are drawn from the stop list, and results are shown only once both
      * ends are selected (no handler ever clears a selection). */
    ghost predicate Valid()
      reads this`fromSuggestions, this`toSuggestions, this`showResults, this`selectedFrom, this`selectedTo
    {
      SuggestionsDrawn() && (showResults ==> selectedFrom.Some? && selectedTo.Some?)
    }

    /** Both suggestion lists keep the order of the stop list they were drawn from. */
    ghost predicate SuggestionsDrawn()
      reads this`fromSuggestions, this`toSuggestions
    {
      IsSubsequence(fromSuggestions, stops) && IsSubsequence(toSuggestions, stops)
    }

    /** A shown origin list is the one for the text now in the origin field. */
    ghost predicate FromSuggestionsCurrent()
      reads this`showFromSuggestions, this`fromSuggestions, this`from
    {
      showFromSuggestions ==> fromSuggestions == Suggest(from, stops)
    }

    /** A shown destination list is the one for the text now in the destination field. */
    ghost predicate ToSuggestionsCurrent()
      reads this`showToSuggestions, this`toSuggestions, this`to
    {
      showToSuggestions ==> toSuggestions == Suggest(to, stops)
    }

    /** The search button is enabled once both ends are selected. */
    predicate SearchEnabled()
      reads this`selectedFrom, this`selectedTo
      ensures !SearchEnabled() ==> FindRoutes(selectedFrom, selectedTo, routes) == []
    {
      selectedFrom.Some? && selectedTo.Some?
    }

    /** `findRoutes()` on the current selections: nothing while the search button is disabled. */
    function FoundRoutes(): (r: seq<BusRoute>)
      reads this`selectedFrom, this`selectedTo
      ensures !SearchEnabled() ==> r == []
      ensures SearchEnabled() ==> forall i :: 0 <= i < |r| ==> ServesBoth(r[i], selectedFrom.value.id, selectedTo.value.id)
      ensures SearchEnabled() ==>
        forall route :: route in routes && ServesBoth(route, selectedFrom.value.id, selectedTo.value.id) ==> route in r
      ensures IsSubsequence(r, routes)
    {
      FindRoutes(selectedFrom, selectedTo, routes)
    }

    /** The form as it first appears: empty fields, no selection, nothing shown. */
    constructor (stops: seq<BusStop>, routes: seq<BusRoute>)
      ensures this.stops == stops && this.routes == routes
      ensures from == "" && to == "" && !showResults
      ensures fromSuggestions == [] && toSuggestions == []
      ensures selectedFrom == None && selectedTo == None
      ensures !showFromSuggestions && !showToSuggestions
      ensures Valid() && FromSuggestionsCurrent() && ToSuggestionsCurrent()
    {
      this.stops, this.routes := stops, routes;
      from, to, showResults := "", "", false;
      fromSuggestions, toSuggestions := [], [];
      selectedFrom, selectedTo := None, None;
      showFromSuggestions, showToSuggestions := false, false;
    }

    /** Typing in the origin field. Only an empty text hides the list; the old list is then
      * kept as it was. A selection made earlier survives the edit. */
    method HandleFromChange(value: string)
      requires Valid()
      modifies this`from, this`fromSuggestions, this`showFromSuggestions
      ensures Valid() && FromSuggestionsCurrent()
      ensures old(ToSuggestionsCurrent()) ==> ToSuggestionsCurrent()
      ensures from == value
      ensures |value| > 0 ==> fromSuggestions == Suggest(value, stops) && showFromSuggestions
      ensures |value| == 0 ==> fromSuggestions == old(fromSuggestions) && !showFromSuggestions
    {
      from := value;
      if |value| > 0 {
        var suggestions := Suggest(value, stops);
        fromSuggestions := suggestions;
        showFromSuggestions := true;
      } else {
        showFromSuggestions := false;
      }
    }

    /** Typing in the destination field; the mirror image of `HandleFromChange`. */
    method HandleToChange(value: string)
      requires Valid()
      modifies this`to, this`toSuggestions, this`showToSuggestions
      ensures Valid() && ToSuggestionsCurrent()
      ensures old(FromSuggestionsCurrent()) ==> FromSuggestionsCurrent()
      ensures to == value
      ensures |value| > 0 ==> toSuggestions == Suggest(value, stops) && showToSuggestions
      ensures |value| == 0 ==> toSuggestions == old(toSuggestions) && !showToSuggestions
    {
      to := value;
      if |value| > 0 {
        var suggestions := Suggest(value, stops);
        toSuggestions := suggestions;
        showToSuggestions := true;
      } else {
        showToSuggestions := false;
      }
    }

    /** Choosing a suggested stop as origin: it is selected, its name fills the field, and the
      * list closes. */
    method SelectFromStop(stop: BusStop)
      requires Valid()
      modifies this`selectedFrom, this`from, this`showFromSuggestions
      ensures Valid() && FromSuggestionsCurrent()
      ensures old(ToSuggestionsCurrent()) ==> ToSuggestionsCurrent()
      ensures selectedFrom == Some(stop) && from == stop.name && !showFromSuggestions
    {
      selectedFrom := Some(stop);
      from := stop.name;
      showFromSuggestions := false;
    }

    /** Choosing a suggested stop as destination. */
    method SelectToStop(stop: BusStop)
      requires Valid()
      modifies this`selectedTo, this`to, this`showToSuggestions
      ensures Valid() && ToSuggestionsCurrent()
      ensures old(FromSuggestionsCurrent()) ==> FromSuggestionsCurrent()
      ensures selectedTo == Some(stop) && to == stop.name && !showToSuggestions
    {
      selectedTo := Some(stop);
      to := stop.name;
      showToSuggestions := false;
    }

    /** A place picked through the external search becomes the selected stop of the chosen
      * side, as a placeholder record, and its address fills that side's field. The suggestion
      * list of that side is left as it was, shown or not. */
    method HandleGoogleLocationSelect(place: PickedPlace, isFrom: bool, now: nat)
      requires Valid()
      modifies this`selectedFrom, this`from, this`selectedTo, this`to
      ensures Valid()
      ensures isFrom ==> selectedFrom == Some(PlaceholderStop(place, now)) && from == place.address &&
                         selectedTo == old(selectedTo) && to == old(to)
      ensures !isFrom ==> selectedTo == Some(PlaceholderStop(place, now)) && to == place.address &&
                          selectedFrom == old(selectedFrom) && from == old(from)
      ensures isFrom && old(ToSuggestionsCurrent()) ==> ToSuggestionsCurrent()
      ensures !isFrom && old(FromSuggestionsCurrent()) ==> FromSuggestionsCurrent()
    {
      var placeholder := PlaceholderStop(place, now);
      if isFrom {
        selectedFrom := Some(placeholder);
        from := place.address;
      } else {
        selectedTo := Some(placeholder);
        to := place.address;
      }
    }

    /** The search: with both ends selected it only shows the results. Otherwise it selects,
      * and shows results for, the first stops whose names equal both texts up to letter case,
      * and does nothing when either text names no stop. */
    method HandleSearch()
      requires Valid()
      modifies this`selectedFrom, this`selectedTo, this`showResults
      ensures Valid()
      ensures old(SearchEnabled()) ==>
        showResults && selectedFrom == old(selectedFrom) && selectedTo == old(selectedTo)
      ensures !old(SearchEnabled()) ==>
        var fromMatch, toMatch := ExactMatch(from, stops), ExactMatch(to, stops);
        if fromMatch.Some? && toMatch.Some? then
          selectedFrom == fromMatch && selectedTo == toMatch && showResults
        else
          selectedFrom == old(selectedFrom) && selectedTo == old(selectedTo) && showResults == old(showResults)
    {
      if selectedFrom.Some? && selectedTo.Some? {
        showResults := true;
      } else {
        var fromMatch := ExactMatch(from, stops);
        var toMatch := ExactMatch(to, stops);
        if fromMatch.Some? && toMatch.Some? {
          selectedFrom := fromMatch;
          selectedTo := toMatch;
          showResults := true;
        }
      }
    }

    /** A click on the search button, which is disabled until both ends are selected: the
      * results appear exactly when it is enabled, and the selections never change, so the
      * exact-name selection inside `HandleSearch` is never reached this way. */
    method PressSearchButton()
      requires Valid()
      modifies this`selectedFrom, this`selectedTo, this`showResults
      ensures Valid()
      ensures selectedFrom == old(selectedFrom) && selectedTo == old(selectedTo)
      ensures showResults == (old(showResults) || old(SearchEnabled()))
    {
      if SearchEnabled() {
        HandleSearch();
      }
    }
  }
}
