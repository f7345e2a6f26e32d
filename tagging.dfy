/** Tagging a place result with its neighbourhood: the result is tested
    against every polygon in order, and each polygon that contains its
    location overwrites `neighborhood` and `numCases` with those of the
    feature the polygon was built from. The map SDK's `containsLocation` is
    the parameter `contains`. */
module Tagging {
  import opened Places

  /** Polygon `k` contains `loc` and no later polygon does. */
  predicate IsLastMatch(loc: LatLng, polygons: seq<Polygon>, contains: (LatLng, Polygon) -> bool, k: int) {
    0 <= k < |polygons| && contains(loc, polygons[k]) &&
    forall j :: k < j < |polygons| ==> !contains(loc, polygons[j])
  }

  /** The index of the last polygon that contains `loc`, if any: the one
      whose write survives the scan. */
  function LastContaining(loc: LatLng, polygons: seq<Polygon>, contains: (LatLng, Polygon) -> bool): (r: Option<nat>)
    ensures r.Some? ==> IsLastMatch(loc, polygons, contains, r.value)
    ensures r.None? ==> forall j :: 0 <= j < |polygons| ==> !contains(loc, polygons[j])
  {
    if polygons == [] then None
    else if contains(loc, polygons[|polygons| - 1]) then Some(|polygons| - 1)
    else LastContaining(loc, polygons[..|polygons| - 1], contains)
  }

  /** The properties tagging copies from a feature. */
  function RegionOf(f: Feature): Region {
    Region(f.name, f.numCases)
  }

  /** The search result built from `place` once every polygon has been
      tried: the place's fields, with `vicinity` as `address`, and the
      region of the highest-indexed containing polygon, or none. */
  function Tag(place: PlaceResult, features: seq<Feature>, polygons: seq<Polygon>,
               contains: (LatLng, Polygon) -> bool): (r: SearchResult)
    requires |polygons| == |features|
    ensures r.placeId == place.placeId && r.location == place.location
    ensures r.name == place.name && r.address == place.vicinity
    ensures r.region.None? <==> forall j :: 0 <= j < |polygons| ==> !contains(place.location, polygons[j])
    ensures forall k :: IsLastMatch(place.location, polygons, contains, k) ==>
              r.region == Some(RegionOf(features[k]))
  {
    var region := match LastContaining(place.location, polygons, contains)
      case None => None
      case Some(k) => Some(RegionOf(features[k]));
    SearchResult(place.placeId, place.location, place.name, place.vicinity, region)
  }

  /** The `forEach` over the polygons, overwriting the result's fields on
      every match. */
  method TagPlace(place: PlaceResult, features: seq<Feature>, polygons: seq<Polygon>,
                  contains: (LatLng, Polygon) -> bool) returns (result: SearchResult)
    requires |polygons| == |features|
    ensures result == Tag(place, features, polygons, contains)
  {
    result := SearchResult(place.placeId, place.location, place.name, place.vicinity, None);
    for i := 0 to |polygons|
      invariant result == Tag(place, features[..i], polygons[..i], contains)
    {
      if contains(result.location, polygons[i]) {
        result := result.(region := Some(RegionOf(features[i])));
      }
      assert polygons[..i + 1][..i] == polygons[..i];
      assert features[..i + 1][i] == features[i];
    }
    assert polygons[..|polygons|] == polygons && features[..|features|] == features;
  }

  /** `req.map(r => { ...; return result; })`: every place tagged, in order. */
  method TagResults(places: seq<PlaceResult>, features: seq<Feature>, polygons: seq<Polygon>,
                    contains: (LatLng, Polygon) -> bool) returns (results: seq<SearchResult>)
    requires |polygons| == |features|
    ensures |results| == |places|
    ensures forall i :: 0 <= i < |places| ==> results[i] == Tag(places[i], features, polygons, contains)
  {
    results := [];
    for i := 0 to |places|
      invariant |results| == i
      invariant forall k :: 0 <= k < i ==> results[k] == Tag(places[k], features, polygons, contains)
    {
      var result := TagPlace(places[i], features, polygons, contains);
      results := results + [result];
    }
  }
}
