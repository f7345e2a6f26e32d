/** The callback of the nearby search in `searchPlaces`: on success every
    place is tagged with its neighbourhood, the list is de-duplicated and
    sorted by case count, and the outcome is emitted to the subscribers of
    `searchResult`; on any other status nothing is emitted. The final
    `.map` that adds a distance and a marker to each result is not part of
    this model. */
module SearchService {
  import opened Places
  import opened Coordinates
  import opened Tagging
  import opened Dedupe
  import opened Ordering

  /** `google.maps.places.PlacesServiceStatus` */
  datatype PlacesServiceStatus =
    | Ok
    | ZeroResults
    | InvalidRequest
    | OverQueryLimit
    | RequestDenied
    | UnknownError
    | NotFound

  /** Every place tagged, in order. */
  function TaggedAll(places: seq<PlaceResult>, features: seq<Feature>, polygons: seq<Polygon>,
                     contains: (LatLng, Polygon) -> bool): seq<SearchResult>
    requires |polygons| == |features|
  {
    seq(|places|, i requires 0 <= i < |places| => Tag(places[i], features, polygons, contains))
  }

  /** What the callback emits, when the status is `Ok`. */
  function Ranked(places: seq<PlaceResult>, features: seq<Feature>,
                  contains: (LatLng, Polygon) -> bool): seq<SearchResult>
    requires IsDataSet(features)
  {
    SortByCases(Deduped(TaggedAll(places, features, Polygons(features), contains)))
  }

  /** The callback, given the search's status and places, the bundled
      features (from which the constructor built the polygons) and the
      SDK's containment test. */
  method SearchPlaces(status: PlacesServiceStatus, places: seq<PlaceResult>, features: seq<Feature>,
                      contains: (LatLng, Polygon) -> bool) returns (emitted: Option<seq<SearchResult>>)
    requires IsDataSet(features)
    ensures emitted.None? <==> status != Ok
    ensures emitted.Some? ==> emitted.value == Ranked(places, features, contains)
    ensures emitted.Some? ==> AllTagged(emitted.value) && SortedByCases(emitted.value)
    ensures emitted.Some? ==>
              multiset(emitted.value) == multiset(Deduped(TaggedAll(places, features, Polygons(features), contains)))
    ensures emitted.Some? ==> forall m :: 0 <= m < |emitted.value| ==> HasNeighborhood(emitted.value[m])
  {
    if status != Ok {
      return None;
    }
    var polygons := Polygons(features);
    var tagged := TagResults(places, features, polygons, contains);
    assert tagged == TaggedAll(places, features, polygons, contains);
    var kept := DedupeResults(tagged);
    var sorted := SortByCases(kept);
    forall m | 0 <= m < |sorted|
      ensures HasNeighborhood(sorted[m])
    {
      assert sorted[m] in multiset(kept);
      var k :| 0 <= k < |kept| && kept[k] == sorted[m];
    }
    return Some(sorted);
  }
}
