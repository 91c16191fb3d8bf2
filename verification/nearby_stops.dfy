/**
 * The nearby-stops panel: an icon per amenity, display figures derived from
 * the stop's position in the list, and a short label per serving route.
 */
module NearbyStops {
  import opened Transport
  import opened Strings
  import MockData

  const Shelter := "\U{1F3E0}"
  const Seating := "\U{1F4BA}"
  const Water := "\U{1F4A7}"
  const Toilet := "\U{1F6BB}"
  const Shops := "\U{1F6CD}\U{FE0F}"
  const Pin := "\U{1F4CD}"

  /** The five amenities that have an icon of their own. */
  const KnownAmenities := ["shelter", "seating", "water", "toilet", "shops"]

  /** `getAmenityIcon`: a fixed icon for each known amenity, the pin for anything else. */
  function AmenityIcon(amenity: string): (icon: string)
    ensures icon == Pin <==> amenity !in KnownAmenities
    ensures amenity == "shelter" ==> icon == Shelter
    ensures amenity == "seating" ==> icon == Seating
    ensures amenity == "water" ==> icon == Water
    ensures amenity == "toilet" ==> icon == Toilet
    ensures amenity == "shops" ==> icon == Shops
  {
    match amenity
    case "shelter" => Shelter
    case "seating" => Seating
    case "water" => Water
    case "toilet" => Toilet
    case "shops" => Shops
    case _ => Pin
  }

  /** Distinct known amenities get distinct icons. */
  lemma AmenityIconInjective(a: string, b: string)
    requires a in KnownAmenities && b in KnownAmenities && a != b
    ensures AmenityIcon(a) != AmenityIcon(b)
  {
  }

  /** No amenity of a fixture stop falls back to the pin. */
  lemma FixtureAmenitiesHaveIcons(s: BusStop, a: string)
    requires s in MockData.MockBusStops && a in s.amenities
    ensures AmenityIcon(a) != Pin
  {
  }

  // ---------------------------------------------------------------------------
  // Figures by position

  /** What a card shows for the stop at a given position of the list. */
  datatype StopCard = StopCard(name: string, code: string, distance: nat, walk: nat, nextBus: nat,
                               icons: seq<string>, routeLabels: seq<string>)

  /** `Route ${routeId.replace('R', '')}`: the id without its first `R`. */
  function RouteLabel(routeId: string): (l: string)
    ensures StartsWith(l, "Route ") && |l| == 6 + |routeId| - (if 'R' in routeId then 1 else 0)
    ensures 'R' !in routeId ==> l == "Route " + routeId
    ensures forall k :: 0 <= k < |routeId| && routeId[k] == 'R' && 'R' !in routeId[..k] ==>
                        l == "Route " + routeId[..k] + routeId[k + 1..]
  {
    var rest := RemoveFirst(routeId, 'R');
    StartsWithConcat("Route ", rest);
    forall k | 0 <= k < |routeId| && routeId[k] == 'R' && 'R' !in routeId[..k]
      ensures "Route " + rest == "Route " + routeId[..k] + routeId[k + 1..]
    {
      assert rest == routeId[..k] + routeId[k + 1..];
    }
    "Route " + rest
  }

  /** The ids of the `R<n>` form lose exactly their letter: `R12` is labelled `Route 12`. */
  lemma RouteLabelOfNumbered(n: nat)
    ensures RouteLabel("R" + NatToString(n)) == "Route " + NatToString(n)
  {
    var id := "R" + NatToString(n);
    RouteLabelDropsLeadingR(id);
    assert id[1..] == NatToString(n);
  }

  /** An id that starts with `R` loses exactly that letter, whatever follows. */
  lemma RouteLabelDropsLeadingR(id: string)
    requires id != [] && id[0] == 'R'
    ensures RouteLabel(id) == "Route " + id[1..]
  {
    assert 'R' !in id[..0];
    assert id[..0] + id[1..] == id[1..];
  }

  /** Only the first `R` goes: an id with a second `R` keeps it. */
  lemma RouteLabelKeepsLaterR()
    ensures RouteLabel("RR1") == "Route R1"
  {
    assert "RR1"[0] == 'R' && 'R' !in "RR1"[..0];
    assert "RR1"[1..] == "R1";
  }

  /** On the fixture every route badge is `Route ` and the digit of the route id. */
  lemma FixtureRouteLabels(s: BusStop, id: string)
    requires s in MockData.MockBusStops && id in s.routes
    ensures RouteLabel(id) == "Route " + id[1..] && |id[1..]| == 1 && '1' <= id[1] <= '4'
  {
    assert id in ["R1", "R2", "R3", "R4"];
    RouteLabelDropsLeadingR(id);
  }

  /** The card of the stop at position `index`: 150 m, 2 min walk and 3 min wait per step. */
  function Card(stop: BusStop, index: nat): (c: StopCard)
    ensures c.name == stop.name && c.code == stop.code
    ensures c.distance == (index + 1) * 150 && c.walk == (index + 1) * 2 && c.nextBus == (index + 1) * 3
    ensures c.distance == c.walk * 75
    ensures c.distance > 0 && c.walk > 0 && c.nextBus > 0
    ensures c.nextBus * 2 == c.walk * 3
    ensures |c.icons| == |stop.amenities| && forall i :: 0 <= i < |stop.amenities| ==> c.icons[i] == AmenityIcon(stop.amenities[i])
    ensures |c.routeLabels| == |stop.routes| && forall i :: 0 <= i < |stop.routes| ==> c.routeLabels[i] == RouteLabel(stop.routes[i])
  {
    StopCard(stop.name, stop.code, (index + 1) * 150, (index + 1) * 2, (index + 1) * 3,
             seq(|stop.amenities|, i requires 0 <= i < |stop.amenities| => AmenityIcon(stop.amenities[i])),
             seq(|stop.routes|, i requires 0 <= i < |stop.routes| => RouteLabel(stop.routes[i])))
  }

  /** `stops.map((stop, index) => ...)`: one card per stop, in list order. */
  function Cards(stops: seq<BusStop>): (cs: seq<StopCard>)
    ensures |cs| == |stops|
    ensures forall i :: 0 <= i < |stops| ==> cs[i] == Card(stops[i], i)
  {
    seq(|stops|, i requires 0 <= i < |stops| => Card(stops[i], i))
  }

  /** The list reads as if sorted by proximity: distance, walk and wait all grow strictly down the list. */
  lemma CardsIncreasing(stops: seq<BusStop>, i: nat, j: nat)
    requires i < j < |stops|
    ensures Cards(stops)[i].distance < Cards(stops)[j].distance
    ensures Cards(stops)[i].walk < Cards(stops)[j].walk
    ensures Cards(stops)[i].nextBus < Cards(stops)[j].nextBus
  {
    var cs := Cards(stops);
    assert cs[i].walk == (i + 1) * 2 && cs[j].walk == (j + 1) * 2;
  }

  /** The first fixture card: City Bus Stand, 150 m, 2 min walk, next bus in 3 min. */
  lemma FixtureFirstCard()
    ensures Cards(MockData.MockBusStops)[0].name == "City Bus Stand"
    ensures Cards(MockData.MockBusStops)[0].distance == 150
    ensures Cards(MockData.MockBusStops)[0].walk == 2 && Cards(MockData.MockBusStops)[0].nextBus == 3
  {
    var cs := Cards(MockData.MockBusStops);
    assert cs[0] == Card(MockData.CityBusStand, 0);
  }
}
