# Transit front end: a Dafny model of its logic

This project models the logic of a small city-bus web front end. It works on
three kinds of record: bus stops, routes (each an ordered list of stops with a
number, a fare, a frequency and operating hours) and live buses (a route, a
next stop, an arrival estimate, an occupancy level and a signed delay in
minutes). The components covered are:

- **Journey search form** (`SearchModal`). The `JourneySearch` class holds the
  form's state:
  - the two text fields
  - the two suggestion lists and their visibility flags
  - the two selected stops
  - the results flag

  Its methods are the form's event handlers:
  - typing in either field
  - picking a suggested stop
  - picking an external place, which becomes a placeholder stop `google_<clock>` with code `GOOGLE` and no routes
  - the search button

  The module also holds the pure parts. `Suggest` is the case-insensitive
  substring filter over stop names. `ExactMatch` finds a stop by exact name,
  ignoring case. `FindRoutes` is the route matcher, which keeps the routes
  that visit both selected stop ids.
- **Live-bus panel** (`LiveMap`). It looks up a route and a stop by id, picks
  the occupancy dot colour and the delay colour, and builds the `+N min` /
  `-N min` delay badge.
- **Map info windows** (`GoogleMap`). It builds these strings:
  - a stop's routes line: `Route <number> (<name>)` entries, with the raw id as fallback, joined by `<br>`
  - a bus window's title, route name and next stop, each with its fallback
  - the occupancy colour, and the delay text and colour
- **Route cards** (`RouteList`). It covers the start hour parsed from `HH:MM`,
  the status colour, the Active/Inactive label, the two-character number badge
  and the stop count.
- **Nearby-stop cards** (`NearbyStops`). It covers the amenity icons, the
  distance, walk and next-bus figures derived from the list position, and the
  `Route <id without its first R>` labels.
- **Fixture** (`MockData`). It holds the five stops, four routes and four live
  buses, with their cross-reference invariants.

Support modules:

- `Transport` holds the record types.
- `Lists` holds `filter`, `find` and `join`, as the components use them, and the first-position search that `find` and one-character `replace` are both defined by.
- `Strings` holds the JavaScript string built-ins the components call:
  - `toLowerCase`
  - `includes`
  - `split(':')[0]`
  - `slice`
  - one-character `replace`
  - number-to-text in template literals
  - `parseInt` with no radix, where `None` stands for `NaN`
- `Wrappers` holds `Option`.

The components read the fixture lists directly. Here those lists are
parameters: the constructor of `JourneySearch` takes them, and each lookup
function takes them as an argument. Each property is proved for every list,
and the concrete outcomes are then proved on the fixture. The clock is a
parameter too: `Date.now()` in the placeholder id and `getHours()` in the
route cards.

Three behaviours of the code are easy to miss:

- A query made only of spaces is not empty, so it filters the stops; it does
  not hide them. `SpaceSuggestsEveryStop` shows that one space suggests every
  fixture stop.
- Picking a stop or clearing a field only hides its suggestion list. The list
  itself is kept, and nothing resets the form's state when the dialog closes.
- Lookups by id are linear `find` scans that return the first match. They do
  not use an index.

## Model

| member | source | states |
|---|---|---|
| Transport.OccupancyName | project/src/types/transport.ts:36 | the stored occupancy text is one of `low`, `medium`, `high` |
| Transport.OccupancyNameInjective | project/src/types/transport.ts:36 | distinct occupancy levels have distinct texts |
| Lists.Filter | project/src/components/SearchModal.tsx:29-31 | every element `filter` returns passes, and a value is in the result exactly when it is in the input and passes |
| Lists.FilterCounts | project/src/components/SearchModal.tsx:29-31 | `filter` keeps each passing value as often as the input holds it, and no other value |
| Lists.FilterIsSubsequence | project/src/components/SearchModal.tsx:29-31 | `filter` keeps the input order: its result is a subsequence of the input |
| Lists.FilterPrefix | project/src/components/SearchModal.tsx:107-111 | if the first k elements pass and the rest fail, the filter gives the first k |
| Lists.FilterEmpty | project/src/components/SearchModal.tsx:107-111 | a filter is empty exactly when no element passes |
| Lists.Find | project/src/components/LiveMap.tsx:8 | `find` is absent iff no element passes; otherwise it is the element at the first passing index |
| Lists.Join | project/src/components/GoogleMap.tsx:106 | `join` of one entry is that entry; the result starts with the first entry; its length is the entries plus one separator between each pair |
| Lists.JoinCons | project/src/components/GoogleMap.tsx:106 | joining a list with a head gives the head, one separator, then the joined rest |
| Strings.ToLowerCase | project/src/components/SearchModal.tsx:30 | same length, each letter lowered, no upper-case letter left |
| Strings.ToLowerCaseIdempotent | project/src/components/SearchModal.tsx:30 | lower-casing twice equals lower-casing once |
| Strings.Includes | project/src/components/SearchModal.tsx:30 | `includes` holds iff the substring occurs at some position |
| Strings.NotIncludedAroundLoneStart | project/src/components/SearchModal.tsx:30 | `includes` fails when the first character of the substring occurs only once and is not followed by its second character |
| Strings.BeforeFirst | project/src/components/RouteList.tsx:7 | `split(':')[0]` is the prefix up to the first colon, has no colon, and is followed by a colon if shorter than the text |
| Strings.BeforeFirstAt | project/src/components/RouteList.tsx:7 | the prefix is the whole text when it has no colon, and the text before the first colon otherwise |
| Strings.Slice | project/src/components/RouteList.tsx:34 | `slice(start)` is a suffix; a negative start takes at most that many characters from the end |
| Strings.RemoveFirst | project/src/components/NearbyStops.tsx:65 | `replace('R','')` removes only the first `R`, and leaves text without `R` unchanged |
| Strings.NatToString | project/src/components/RouteList.tsx:60 | a number renders as non-empty decimal digits with no leading zero |
| Strings.IntToString | project/src/components/GoogleMap.tsx:163 | `${i}` of an integer is non-empty and starts with `-` exactly when the integer is negative; ParseIntOfRendered reads it back |
| Strings.ParseIntOfRendered | project/src/components/LiveMap.tsx:93 | `parseInt` reads back any integer rendered by a template literal, whatever follows it, provided that text starts with neither a digit nor `x`/`X` (after a `0`, an `x` would start a hexadecimal prefix); for JavaScript's own rendering this holds below 10^21 in magnitude (see Left out) |
| Strings.ParseIntOfDigits | project/src/components/RouteList.tsx:7 | `parseInt` of a run of decimal digits, leading zeros included, is its decimal value; JavaScript gives that value exactly only up to 2^53 (see Left out) |
| Strings.ParseTwoDigits | project/src/components/RouteList.tsx:7 | `parseInt` of two decimal digits is ten times the first plus the second, so `"06"` reads as 6 |
| Strings.NatToStringValue | project/src/components/RouteList.tsx:60 | the digits of a rendered number have that number as their value |
| Strings.ParseInt | project/src/components/RouteList.tsx:7 | `parseInt` with no radix skips leading JavaScript white space, reads an optional sign, then a `0x`/`0X` prefix for radix 16, then the longest run of digits; text that is blank after the white space is `NaN` |
| Strings.ParseIntNeedsDigit | project/src/components/RouteList.tsx:7 | `parseInt` gives a number only for text that holds a decimal digit; with none it is `NaN` |
| Strings.ParseIntHex | project/src/components/RouteList.tsx:7 | with no radix, `0x1A` reads as hexadecimal 26 |
| Strings.ParseIntSignedHex | project/src/components/RouteList.tsx:7 | a sign is read before the hexadecimal prefix: `-0x10` reads as -16 |
| Strings.ParseIntNoDigits | project/src/components/RouteList.tsx:7 | the empty text and a lone `-` are `NaN` |
| MockData.IdsDistinct | project/src/data/mockData.ts:3-87 | stop ids are pairwise distinct, and so are route ids |
| MockData.RouteStopsWellFormed | project/src/data/mockData.ts:52-82 | every route visits only fixture stops, none twice |
| MockData.StopRoutesMatchRouteStops | project/src/data/mockData.ts:9-82 | a stop lists a route id exactly when that route visits the stop |
| MockData.LiveBusesReferToRoutes | project/src/data/mockData.ts:89-126 | each live bus names an existing route, and its next stop lies on that route |
| MockData.FiguresInRange | project/src/data/mockData.ts:53-123 | arrival estimates are non-negative; fares and frequencies are positive |
| SearchModal.Suggest | project/src/components/SearchModal.tsx:28-31 | the suggestions are exactly the stops whose lower-cased name contains the lower-cased query, in stop-list order |
| SearchModal.SuggestCounts | project/src/components/SearchModal.tsx:29-31 | each matching stop is suggested as often as the stop list holds it, and no other stop is |
| SearchModal.SuggestIgnoresCase | project/src/components/SearchModal.tsx:30 | queries equal up to letter case give identical suggestions |
| SearchModal.SuggestFindsOwnName | project/src/components/SearchModal.tsx:29-31 | typing a stop's name, in any case, suggests that stop |
| SearchModal.ExactMatch | project/src/components/SearchModal.tsx:89-94 | absent iff no stop name equals the text up to case; otherwise a listed stop whose name does |
| SearchModal.ExactMatchIsFirst | project/src/components/SearchModal.tsx:89-94 | the stop found is the first in the list whose name equals the text up to case |
| SearchModal.FindRoutes | project/src/components/SearchModal.tsx:104-111 | empty unless both ends are selected; otherwise every returned route visits both stop ids, every such route is returned, in route-list order |
| SearchModal.FindRoutesCounts | project/src/components/SearchModal.tsx:107-111 | duplicates are kept: each route serving both stops appears as often as the route list holds it, and no other route appears |
| SearchModal.FindRoutesBounded | project/src/components/SearchModal.tsx:107-111 | the routes offered never outnumber the routes listed |
| SearchModal.FindRoutesPrefix | project/src/components/SearchModal.tsx:107-111 | when the serving routes are exactly the first k, the result is those k, in order |
| SearchModal.FindRoutesSymmetric | project/src/components/SearchModal.tsx:108-110 | swapping origin and destination changes nothing: direction is never checked |
| SearchModal.FindRoutesSameStop | project/src/components/SearchModal.tsx:108-110 | with one stop at both ends, the result is every route visiting it |
| SearchModal.FindRoutesById | project/src/components/SearchModal.tsx:108-109 | only the stop ids matter, not the rest of the stop records |
| SearchModal.FindRoutesEmpty | project/src/components/SearchModal.tsx:107-111 | no routes are offered iff no route serves both selected stops |
| SearchModal.PlaceholderStop | project/src/components/SearchModal.tsx:66-73 | the record made for a picked place serves no route, and its id holds at least one clock digit after `google_` |
| SearchModal.PlaceholderStopShape | project/src/components/SearchModal.tsx:66-73 | the placeholder id is `google_` followed by the clock reading (which parses back), its name is the address, its code is `GOOGLE`, and it has no routes and no amenities |
| SearchModal.PlaceholderFindsNoRoute | project/src/components/SearchModal.tsx:66-73 | on the fixture, a placeholder at either end yields no route |
| SearchModal.RailSuggestsStation | project/src/components/SearchModal.tsx:29-31 | on the fixture, `Rail` suggests Railway Station only |
| SearchModal.GovernmentHospitalNotRail | project/src/components/SearchModal.tsx:29-31 | `government hospital` contains every letter of `rail` but not the block, so `Rail` does not suggest it |
| SearchModal.SpaceSuggestsEveryStop | project/src/components/SearchModal.tsx:28 | a one-space query still filters, and suggests every fixture stop |
| SearchModal.CityBusStandToRailwayStation | project/src/components/SearchModal.tsx:104-111 | on the fixture, City Bus Stand to Railway Station gives `[R1]` |
| SearchModal.CityBusStandToCollegeSquare | project/src/components/SearchModal.tsx:104-111 | on the fixture, City Bus Stand to College Square gives `[R1, R2]` |
| SearchModal.JourneySearch.FoundRoutes | project/src/components/SearchModal.tsx:104-105 | no routes while either end is unselected; otherwise exactly the routes serving both ends: each one returned serves both, and every serving route is returned, in order |
| SearchModal.JourneySearch.SearchEnabled | project/src/components/SearchModal.tsx:244 | the button is enabled once both ends are selected; while it is disabled, `findRoutes` would find nothing anyway |
| SearchModal.JourneySearch.constructor | project/src/components/SearchModal.tsx:14-22 | the form starts with empty fields, no selection and nothing shown |
| SearchModal.JourneySearch.HandleFromChange | project/src/components/SearchModal.tsx:26-37 | the field takes the value; a non-empty value shows its current suggestions; an empty one hides the list and keeps it; selections and the other side are untouched |
| SearchModal.JourneySearch.HandleToChange | project/src/components/SearchModal.tsx:39-50 | the mirror image of the origin handler |
| SearchModal.JourneySearch.SelectFromStop | project/src/components/SearchModal.tsx:52-56 | the stop is selected, its name fills the field, the list closes, and the destination side is unchanged |
| SearchModal.JourneySearch.SelectToStop | project/src/components/SearchModal.tsx:58-62 | the mirror image for the destination |
| SearchModal.JourneySearch.HandleGoogleLocationSelect | project/src/components/SearchModal.tsx:64-82 | only the chosen side changes: its selection becomes the placeholder and its field the address; the suggestion lists and flags are left alone |
| SearchModal.JourneySearch.HandleSearch | project/src/components/SearchModal.tsx:84-102 | with both ends selected, it only shows results; otherwise it selects the first exact-name matches and shows results when both texts match, and changes nothing when either does not |
| SearchModal.JourneySearch.PressSearchButton | project/src/components/SearchModal.tsx:242-244 | the button runs the search only when both ends are selected, so the results appear exactly then and the selections never change |
| LiveMap.GetRouteInfo | project/src/components/LiveMap.tsx:7-9 | absent iff no route has the id; otherwise it is the first route with that id |
| LiveMap.GetStopInfo | project/src/components/LiveMap.tsx:11-13 | absent iff no stop has the id; otherwise it is the first stop with that id |
| LiveMap.GetRouteInfoOfMember | project/src/components/LiveMap.tsx:7-9 | with distinct ids, looking up a route's id gives back that route |
| LiveMap.GetStopInfoOfMember | project/src/components/LiveMap.tsx:11-13 | with distinct ids, looking up a stop's id gives back that stop |
| LiveMap.LiveBusesResolve | project/src/components/LiveMap.tsx:62-63 | on the fixture, every live bus finds its route and its next stop |
| LiveMap.OccupancyColor | project/src/components/LiveMap.tsx:15-22 | `low` is green, `medium` yellow, `high` red, and any other text gray |
| LiveMap.OccupancyColorOfRecord | project/src/components/LiveMap.tsx:78 | a bus record never gets the gray default, and distinct levels get distinct colours |
| LiveMap.DelayColor | project/src/components/LiveMap.tsx:24-28 | green iff delay <= 0, yellow iff 0 < delay <= 5, red iff delay > 5 |
| LiveMap.DelayColorMonotone | project/src/components/LiveMap.tsx:24-28 | a larger delay never gets a less severe colour |
| LiveMap.DelayLabel | project/src/components/LiveMap.tsx:91-94 | no badge iff delay is 0; the badge starts with `+` iff late and `-` iff early, ends in ` min`, and parses back to the delay; the figure is the plain decimal magnitude, with no leading zero |
| LiveMap.GreenBadgeMeansEarly | project/src/components/LiveMap.tsx:91-94 | a badge shown in green belongs to an early bus |
| GoogleMap.RouteEntry | project/src/components/GoogleMap.tsx:103-105 | an unknown route id shows as itself; a known one as `Route <number> (<name>)` of the first route with that id |
| GoogleMap.RouteEntries | project/src/components/GoogleMap.tsx:103-105 | one entry per route id, in the stop's order |
| GoogleMap.RoutesList | project/src/components/GoogleMap.tsx:103-106 | no ids give an empty line and one id gives its entry; the line starts with the first entry, and its length is the entries plus one `<br>` between each pair |
| GoogleMap.RoutesListCons | project/src/components/GoogleMap.tsx:106 | the line for several ids is the first entry, `<br>`, then the line for the rest |
| GoogleMap.StopRouteIdsResolve | project/src/components/GoogleMap.tsx:104 | every route id listed by a fixture stop names a fixture route |
| GoogleMap.FixtureRoutesListHasNoRawIds | project/src/components/GoogleMap.tsx:103-105 | on the fixture every entry is a `Route ...` entry, never a raw id |
| GoogleMap.KnownRouteEntry | project/src/components/GoogleMap.tsx:103-105 | an id that some route carries gets a `Route ...` entry, never the raw id |
| GoogleMap.OrElse | project/src/components/GoogleMap.tsx:146 | the JavaScript or-fallback gives the fallback both for a missing value and for an empty text |
| GoogleMap.BusTitle | project/src/components/GoogleMap.tsx:140-146 | `Bus <number>` of the first route with the bus's route id; `Bus <routeId>` if there is none or its number is empty |
| GoogleMap.RouteNameLine | project/src/components/GoogleMap.tsx:174 | the route's name, else `Unknown Route` |
| GoogleMap.NextStopName | project/src/components/GoogleMap.tsx:179 | the next stop's name, else `Unknown` |
| GoogleMap.OccupancyColor | project/src/components/GoogleMap.tsx:159-160 | green iff `low`, amber iff `medium`, red for everything else |
| GoogleMap.OccupancyPalettesAgree | project/src/components/GoogleMap.tsx:159-160 | for recorded levels the window and the live panel show the same hue; for any other text the panel shows gray and the window red |
| GoogleMap.DelayText | project/src/components/GoogleMap.tsx:162-164 | `On time` iff delay is 0; ends in ` min late` iff late and ` min early` iff early; the figure parses back to the absolute delay; the figure is the plain decimal magnitude, with no leading zero |
| GoogleMap.Abs | project/src/components/GoogleMap.tsx:164 | `Math.abs` gives the integer or its negation, never a negative number |
| GoogleMap.DelayColor | project/src/components/GoogleMap.tsx:166-167 | green iff delay <= 0, amber iff 0 < delay <= 5, red iff delay > 5 |
| GoogleMap.DelayPalettesAgree | project/src/components/GoogleMap.tsx:166-167 | the window and the live panel colour every delay in the same band |
| GoogleMap.FixtureBusTitlesNeedNoFallback | project/src/components/GoogleMap.tsx:146 | on the fixture each bus title carries its route's number, never the raw id |
| GoogleMap.FixtureRouteNamesNeedNoFallback | project/src/components/GoogleMap.tsx:174 | on the fixture no bus window shows `Unknown Route` |
| GoogleMap.FixtureNextStopsNeedNoFallback | project/src/components/GoogleMap.tsx:179 | on the fixture no bus window shows `Unknown` |
| RouteList.StartHour | project/src/components/RouteList.tsx:7 | the hour is `parseInt` of the text before the first colon, or of the whole text when it has none |
| RouteList.StartHourOfClock | project/src/components/RouteList.tsx:7 | an `HH:MM` time yields the value of its two digits, a leading zero included |
| RouteList.FixtureStartHours | project/src/data/mockData.ts:54-84 | the fixture routes start at hours 6, 6, 7 and 6 |
| RouteList.StatusColor | project/src/components/RouteList.tsx:6-14 | green iff the start hour parses and start <= hour < 22; red otherwise, including `NaN` |
| RouteList.RouteStatusColor | project/src/components/RouteList.tsx:42 | the card is green iff the hour read from the start of the operating hours is at most the current hour and the current hour is before 22, and red otherwise |
| RouteList.StatusIgnoresEnd | project/src/components/RouteList.tsx:42 | changing the end of the operating hours never changes the status |
| RouteList.ActiveLabel | project/src/components/RouteList.tsx:43 | `Active` iff 6 <= hour < 22, whatever the route |
| RouteList.GreenMeansActive | project/src/components/RouteList.tsx:10-43 | a green status implies `Active` for a route starting at 06:00 or later |
| RouteList.LabelAndStatusDisagree | project/src/components/RouteList.tsx:10-43 | at 06:xx Market Express shows `Active` in red; at 22:xx Station Connector, which runs until 23:00, shows `Inactive` in red |
| RouteList.Badge | project/src/components/RouteList.tsx:34 | the last two characters of the number, or all of a shorter one |
| RouteList.BadgeOfShort | project/src/components/RouteList.tsx:34 | a number of at most two characters is its own badge |
| RouteList.FixtureBadges | project/src/components/RouteList.tsx:34 | the fixture badges are `01` to `04` |
| RouteList.StopCountLabel | project/src/components/RouteList.tsx:60 | the label ends in ` stops` and parses back to the number of stops |
| RouteList.FixtureStopCounts | project/src/components/RouteList.tsx:60 | every fixture route card shows 3 stops |
| NearbyStops.AmenityIcon | project/src/components/NearbyStops.tsx:6-15 | each of the five known amenities gets its icon; the pin is used iff the amenity is unknown |
| NearbyStops.AmenityIconInjective | project/src/components/NearbyStops.tsx:6-15 | distinct known amenities get distinct icons |
| NearbyStops.FixtureAmenitiesHaveIcons | project/src/components/NearbyStops.tsx:52 | no fixture amenity falls back to the pin |
| NearbyStops.RouteLabel | project/src/components/NearbyStops.tsx:65 | `Route ` followed by the id without its first `R`; an id without `R` is kept whole |
| NearbyStops.RouteLabelDropsLeadingR | project/src/components/NearbyStops.tsx:65 | an id starting with `R` is labelled `Route ` followed by the rest of the id |
| NearbyStops.RouteLabelOfNumbered | project/src/components/NearbyStops.tsx:65 | `R<n>` is labelled `Route <n>` |
| NearbyStops.RouteLabelKeepsLaterR | project/src/components/NearbyStops.tsx:65 | only the first `R` goes: `RR1` becomes `Route R1` |
| NearbyStops.FixtureRouteLabels | project/src/components/NearbyStops.tsx:60-65 | every fixture route label is `Route ` followed by one digit from 1 to 4 |
| NearbyStops.Card | project/src/components/NearbyStops.tsx:33-72 | a card keeps the stop's name and code; the card at position i shows (i + 1) × 150 m, a (i + 1) × 2 min walk and a (i + 1) × 3 min wait; walk time × 75 = distance; all figures are positive; 2 × wait = 3 × walk; one icon per amenity and one label per route, in order |
| NearbyStops.Cards | project/src/components/NearbyStops.tsx:33 | one card per stop, in list order, built from the stop's position |
| NearbyStops.CardsIncreasing | project/src/components/NearbyStops.tsx:41-72 | distance, walk and next-bus figures grow strictly down the list |
| NearbyStops.FixtureFirstCard | project/src/components/NearbyStops.tsx:41-72 | the first fixture card is City Bus Stand at 150 m, a 2 min walk, next bus in 3 min |

## Left out

- Rendering is left out: the JSX markup, CSS classes, icons from the icon library, the show/hide map toggle, and the toggle between stop search and external place search. These are presentation; the toggle only changes which selection handler runs.
- The random travel time and distance on the result cards are left out (`Math.random`, floating point).
- The map component is left out: the loader, the map, markers, polylines, the marker list it rebuilds, and the info-window lifecycle. So is the place-search component (place autocomplete, browser geolocation, alerts). These are calls into an external library and asynchronous callbacks. Of the text placed in the info windows, the model covers the route list, the bus title, the route-name and next-stop lines, and the occupancy and delay colours and text. It leaves out these parts, which only interpolate record fields: the stop window's name heading and `Code:` line (GoogleMap.tsx:114-115), the amenity chips, the `${bus.occupancy} occupancy` line (GoogleMap.tsx:189) and the `Arriving in N minutes` line.
- The clock is not modelled: `Date.now()` and `getHours()` are parameters.
- RouteStatusColor and ActiveLabel: a route card reads `new Date().getHours()` three times (RouteList.tsx:8 and twice on line 43). The model takes one `currentHour` for all three reads, so a card rendered across an hour boundary, whose reads may differ, is not modelled. `LabelAndStatusDisagree` relies on the single reading.
- Badge: JavaScript strings are sequences of UTF-16 code units, while `string` here is a sequence of Unicode characters. So `slice(-2)` on a route number ending in a character outside the Basic Multilingual Plane (two code units) gives a different result from the model, which takes two whole characters. The same holds for the lengths used by `includes` and `replace`.
- Latitude and longitude are opaque `real` values; no arithmetic is done with them.
- `toLowerCase` lowers ASCII letters only; the full Unicode case mapping is not modelled.
- Numbers are integers: a fractional delay, arrival estimate or hour is not modelled, and neither are `NaN` or infinite delays.
- ParseIntOfRendered, ParseIntOfDigits, ParseInt, IntToString, DelayLabel, DelayText, StopCountLabel, PlaceholderStopShape: the model's `int` is unbounded, while JavaScript numbers are doubles. JavaScript rounds integers above 2^53, both before rendering them and when `parseInt` reads a longer digit run (`parseInt("9007199254740993")` is 9007199254740992), and `${n}` switches to exponent form from 10^21 (`1e+21`, which `parseInt` reads as 1). So the parse-back facts hold for JavaScript only for magnitudes below 10^21, and exactly only below 2^53. The model renders every integer in plain decimal.
- The application shell, header, sidebar and quick-action components only compose views and are not part of this model. Neither is the `Journey` type, which no logic uses.
- The components read the fixture lists as module constants. The model passes them in as parameters and proves the fixture outcomes separately.
