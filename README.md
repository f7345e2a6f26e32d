# Neighbourhood search results: a Dafny model

This project models the result-processing logic of the `SearchService` of a
small Angular map application. The service loads a GeoJSON data set of
Toronto neighbourhoods, each with a name and a case count. It runs a
"nearby places" search through the map SDK. Then it:

1. builds one map polygon per neighbourhood, turning GeoJSON `[lng, lat]`
   positions into `{lat, lng}` points (module `Coordinates`, the constructor);
2. tags every place with the neighbourhood whose polygon contains it; when
   several do, the last one in the data set wins (module `Tagging`);
3. drops places without a neighbourhood and places whose street (the part of
   the address before the first comma) already occurs in an earlier address
   (module `Dedupe`, with `includes` and `split` in module `JsStrings`);
4. sorts the survivors by case count, ascending and stable (module `Ordering`);
5. emits the list when the search status is OK (module `SearchService`).

Separately, `normalizeColors` gives each result a shade between 0 and 1
(module `Colors`). The shade falls linearly from 1 at the scan's `min` to 0
at its `max`. The scan seeds `min` with 266 and `max` with 0, so these are
the smallest and largest counts only when the smallest is at most 266 and
the largest at least 0.

The SDK's point-in-polygon test `containsLocation` is not modelled. It is a
parameter `contains: (LatLng, Polygon) -> bool`, so every property holds
whatever the test answers.

The imperative parts of the source are methods with loops: the min/max scan
(`Colors.ScanCaseBounds`), the tagging `forEach` (`Tagging.TagPlace`), the
filter callback's `for` loop with early return (`Dedupe.KeepAt`), and the
`map` and `filter` calls that run those callbacks (`Tagging.TagResults`,
`Dedupe.DedupeResults`). Each is proved against a specification function.
The coordinate conversion, the shade and the sort are functions.

## Model

| member | source | states |
|---|---|---|
| `JsStrings.Includes` | src/app/services/search.service.ts:113 | `address.includes(street)`; a string includes only needles no longer than itself, and `IncludesIffOccurs` gives its full meaning as a substring test |
| `JsStrings.IncludesIffOccurs` | src/app/services/search.service.ts:113 | `includes` holds exactly when the needle occurs at some offset of the string |
| `JsStrings.IncludesPrefix` | src/app/services/search.service.ts:113 | a string includes each of its prefixes, the empty string among them |
| `JsStrings.FirstSegment` | src/app/services/search.service.ts:113 | the first segment is a prefix of the address, holds no comma, and is all of it or stops at a comma |
| `JsStrings.Split` | src/app/services/search.service.ts:113 | `split` yields at least one segment; none holds the separator; segment 0 is the first segment |
| `JsStrings.JoinSplit` | src/app/services/search.service.ts:113 | joining the segments with the separator gives back the address |
| `JsStrings.FirstSegmentEmpty` | src/app/services/search.service.ts:113 | `split(',')[0]` is empty iff the address is empty or starts with a comma |
| `Coordinates.ToPath` | src/app/services/search.service.ts:30-32 | a path has one point per position; point j has lat = position[1] and lng = position[0] |
| `Coordinates.ToPaths` | src/app/services/search.service.ts:29-33 | same number of rings, each ring keeps its length, point j of ring r swaps position r,j |
| `Coordinates.Polygons` | src/app/services/search.service.ts:28-35 | one polygon per feature, in order, whose paths are that feature's converted rings |
| `Coordinates.PathRoundTrip` | src/app/services/search.service.ts:30-32 | converting points to `[lng, lat]` positions and back gives the same path |
| `Coordinates.RingRoundTrip` | src/app/services/search.service.ts:30-32 | for two-number positions, converting a ring to points and back gives the same ring |
| `Coordinates.PathsRoundTrip` | src/app/services/search.service.ts:29-33 | the round trip from points holds for all rings of a polygon |
| `Coordinates.RingsRoundTrip` | src/app/services/search.service.ts:29-33 | the round trip from positions holds for all rings of a feature |
| `Tagging.LastContaining` | src/app/services/search.service.ts:97-107 | the chosen polygon contains the location and no later one does; none is chosen iff no polygon contains it |
| `Tagging.Tag` | src/app/services/search.service.ts:91-108 | the place's fields are copied (`vicinity` as `address`); no region iff no polygon contains the location; otherwise the region is that of the last containing polygon |
| `Tagging.TagPlace` | src/app/services/search.service.ts:97-107 | the loop that overwrites the tag on every match ends with `Tag`'s result |
| `Tagging.TagResults` | src/app/services/search.service.ts:90-109 | one result per place, in order, each the tagged place |
| `Dedupe.Street` | src/app/services/search.service.ts:113 | `res.address.split(',')[0]`: a prefix of the address with no comma, ending at the first comma or at the end; `FirstSegment` gives this meaning |
| `Dedupe.KeepAt` | src/app/services/search.service.ts:110-117 | the callback returns true iff the result has a non-empty neighbourhood and no earlier result of the unfiltered list has an address including its first address segment |
| `Dedupe.Survivors` | src/app/services/search.service.ts:110-117 | the filter output is no longer than its input and every kept result has a neighbourhood |
| `Dedupe.DedupeResults` | src/app/services/search.service.ts:110-117 | the `filter` loop yields exactly the survivors of the whole list |
| `Dedupe.KeptIndices` | src/app/services/search.service.ts:110-117 | the surviving positions are ascending, each one kept, and every kept position is among them |
| `Dedupe.SurvivorsSelect` | src/app/services/search.service.ts:110-117 | the survivors of a prefix are that prefix read at the surviving positions |
| `Dedupe.DedupedIsSubsequence` | src/app/services/search.service.ts:110-117 | the filter output is an order-preserving subsequence of its input, and position k is kept iff the callback keeps it |
| `Dedupe.SurvivorsAllKept` | src/app/services/search.service.ts:110-117 | a list whose every element the callback keeps passes the filter unchanged |
| `Dedupe.DedupedIdempotent` | src/app/services/search.service.ts:110-117 | filtering the output again changes nothing |
| `Dedupe.RepeatedAddressDropped` | src/app/services/search.service.ts:112-115 | a result whose address also appears at an earlier position is dropped, even if that earlier result was dropped |
| `Dedupe.EmptyStreetOnlyFirst` | src/app/services/search.service.ts:113 | a result whose address is empty or starts with a comma is dropped at every index after 0 |
| `Dedupe.DroppedStillSuppresses` | src/app/services/search.service.ts:111-114 | an example: in the list [untagged result at "a,b", tagged result at "a"] the untagged result is dropped and still removes the tagged one, so the filter returns [] |
| `Ordering.Insert` | src/app/services/search.service.ts:118 | insertion adds exactly one element and keeps every result tagged |
| `Ordering.InsertSorted` | src/app/services/search.service.ts:118 | inserting into a list sorted by case count keeps it sorted |
| `Ordering.SortByCases` | src/app/services/search.service.ts:118 | the sorted list is a permutation of its input and non-decreasing by `numCases` |
| `Ordering.InsertStable` | src/app/services/search.service.ts:118 | insertion puts the new result before the results with the same count |
| `Ordering.SortStable` | src/app/services/search.service.ts:118 | for every case count, the results with that count keep their input order |
| `Colors.MinCases` | src/app/services/search.service.ts:39-43 | the scan's `min` is at most 266, at most every count, and is 266 or some result's count |
| `Colors.MaxCases` | src/app/services/search.service.ts:39-43 | the scan's `max` is at least 0, at least every count, and is 0 or some result's count |
| `Colors.ScanCaseBounds` | src/app/services/search.service.ts:39-43 | the loop ends with `min` and `max` as those bounds |
| `Colors.Shade` | src/app/services/search.service.ts:45 | for a count within the bounds the shade is in [0, 1]; the largest count gets 0 and the smallest gets 1 |
| `Colors.ShadeAntitone` | src/app/services/search.service.ts:45 | a larger count never gets a larger shade |
| `Colors.NormalizeColors` | src/app/services/search.service.ts:38-48 | same length; element i is input element i plus its shade; shades lie in [0, 1], are 0 at the max, 1 at the min, and do not increase with the count |
| `SearchService.SearchPlaces` | src/app/services/search.service.ts:86-118 | nothing is emitted unless the status is OK; otherwise the emitted list is the sorted de-duplicated tagged places: sorted by count, a permutation of the filter output, every result with a neighbourhood |

## Left out

- Map SDK objects and calls: the polygon objects' behaviour, markers, info windows, the geocoder, `LatLngBounds` and the `TORONTO_BOUNDS` constant, and the places search itself. The search's answer is an input. `containsLocation` is the parameter `contains`.
- `calcDistance` and the final `.map` that adds `distance` and `marker`: floating-point trigonometry (`cos`, `asin`, `sqrt`), `toFixed(2)` and SDK objects.
- The `rgb(...)` string built from the shade: floating-point formatting. The shade is an exact real.
- Colors.NormalizeColors: requires that the scan's `min` and `max` differ. When they are equal, JavaScript divides 0 by 0 and every shade is NaN. It also requires every result to carry a count. In JavaScript a record without `numCases` leaves the scan unchanged and gets a NaN shade; the service only ever emits tagged results, so that case is not modelled.
- Floating-point rounding in the shade and in coordinates: numbers are exact reals.
- Angular dependency injection, `setMap`, the early return when no map is set, clearing the previous markers, and the `BehaviorSubject` emission. The model returns the emitted list instead.
- The asynchronous callback: `SearchService.SearchPlaces` is the callback body, run once with the search's status and places.
- Loading `data.json`: the features are an input. Coordinates require every GeoJSON position to hold at least two numbers (section 3.1.1 of RFC 7946).
- Tagging mutates a freshly built result object. That object is not shared, so it is a local record value updated in the loop.
- Missing fields: a place without `vicinity`, or a feature without `numCases`, would make the JavaScript throw or compare `undefined`. Addresses are strings and counts are integers here.
- Ordering.SortByCases: requires every result to be tagged. The sort only ever receives filter output, where this holds; JavaScript's behaviour on an undefined `numCases` is not modelled.
