/** The records that flow through the search service: the bundled
    neighbourhood features, the polygons built from them, the raw place
    results of a nearby search and the search results derived from them. */
module Places {

  datatype Option<+T> = None | Some(value: T)

  /** A `{lat, lng}` literal, as the map SDK takes it. */
  datatype LatLng = LatLng(lat: real, lng: real)

  /** A map polygon: its `paths`, one ring of points per GeoJSON ring. */
  datatype Polygon = Polygon(paths: seq<seq<LatLng>>)

  /** One feature of the bundled data set: `properties.name`,
      `properties.numCases` and `geometry.coordinates` (rings of
      GeoJSON positions, each position an array `[lng, lat, ...]`). */
  datatype Feature = Feature(name: string, numCases: int, coordinates: seq<seq<seq<real>>>)

  /** The fields of a place returned by a nearby search that the service reads. */
  datatype PlaceResult = PlaceResult(placeId: string, location: LatLng, name: string, vicinity: string)

  /** The two properties tagging copies from a feature; they are always
      written together, so a result has both or neither. */
  datatype Region = Region(neighborhood: string, numCases: int)

  /** A search result: the place's fields plus the region it was tagged with, if any. */
  datatype SearchResult = SearchResult(
    placeId: string,
    location: LatLng,
    name: string,
    address: string,
    region: Option<Region>)

  /** `res.neighborhood` is truthy: present and not the empty string. */
  predicate HasNeighborhood(r: SearchResult) {
    r.region.Some? && r.region.value.neighborhood != ""
  }

  /** Every result has been tagged, so its `numCases` is defined. */
  predicate AllTagged(s: seq<SearchResult>) {
    forall i :: 0 <= i < |s| ==> s[i].region.Some?
  }

  /** The `numCases` of a tagged result. */
  function Cases(r: SearchResult): int
    requires r.region.Some?
  {
    r.region.value.numCases
  }
}
