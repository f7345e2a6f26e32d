/** The service constructor: every feature of the bundled data becomes a
    polygon whose paths are the feature's GeoJSON rings with each position
    `[lng, lat]` turned into a `{lat, lng}` point. */
module Coordinates {
  import opened Places

  /** A GeoJSON position holds at least a longitude and a latitude
      (section 3.1.1 of RFC 7946); numbers after the second are ignored. */
  predicate IsPosition(p: seq<real>) {
    |p| >= 2
  }

  predicate IsRing(ring: seq<seq<real>>) {
    forall j :: 0 <= j < |ring| ==> IsPosition(ring[j])
  }

  predicate IsRings(rings: seq<seq<seq<real>>>) {
    forall r :: 0 <= r < |rings| ==> IsRing(rings[r])
  }

  predicate IsDataSet(features: seq<Feature>) {
    forall i :: 0 <= i < |features| ==> IsRings(features[i].coordinates)
  }

  /** `([lng, lat]) => ({ lat, lng })` */
  function ToLatLng(p: seq<real>): LatLng
    requires IsPosition(p)
  {
    LatLng(p[1], p[0])
  }

  /** `co.map(([lng, lat]) => ({ lat, lng }))`: one ring to one path. */
  function ToPath(ring: seq<seq<real>>): (path: seq<LatLng>)
    requires IsRing(ring)
    ensures |path| == |ring|
    ensures forall j :: 0 <= j < |ring| ==> path[j].lat == ring[j][1] && path[j].lng == ring[j][0]
  {
    if ring == [] then [] else [ToLatLng(ring[0])] + ToPath(ring[1..])
  }

  /** `coordinates.map(co => ...)`: every ring, in order. */
  function ToPaths(rings: seq<seq<seq<real>>>): (paths: seq<seq<LatLng>>)
    requires IsRings(rings)
    ensures |paths| == |rings|
    ensures forall r :: 0 <= r < |rings| ==> |paths[r]| == |rings[r]|
    ensures forall r, j :: 0 <= r < |rings| && 0 <= j < |rings[r]| ==>
              paths[r][j].lat == rings[r][j][1] && paths[r][j].lng == rings[r][j][0]
  {
    if rings == [] then [] else [ToPath(rings[0])] + ToPaths(rings[1..])
  }

  /** `data.features.map(feature => new Polygon({ paths: ... }))`. */
  function Polygons(features: seq<Feature>): (polygons: seq<Polygon>)
    requires IsDataSet(features)
    ensures |polygons| == |features|
    ensures forall i :: 0 <= i < |features| ==> polygons[i].paths == ToPaths(features[i].coordinates)
  {
    if features == [] then [] else [Polygon(ToPaths(features[0].coordinates))] + Polygons(features[1..])
  }

  /** The way back: a point as a two-number GeoJSON position. */
  function ToPosition(p: LatLng): seq<real> {
    [p.lng, p.lat]
  }

  function ToRing(path: seq<LatLng>): (ring: seq<seq<real>>)
    ensures IsRing(ring) && |ring| == |path|
  {
    if path == [] then [] else [ToPosition(path[0])] + ToRing(path[1..])
  }

  function ToRings(paths: seq<seq<LatLng>>): (rings: seq<seq<seq<real>>>)
    ensures IsRings(rings) && |rings| == |paths|
  {
    if paths == [] then [] else [ToRing(paths[0])] + ToRings(paths[1..])
  }

  /** Converting a path to positions and back gives the same path. */
  lemma {:induction false} PathRoundTrip(path: seq<LatLng>)
    ensures ToPath(ToRing(path)) == path
  {
    if path != [] {
      PathRoundTrip(path[1..]);
    }
  }

  /** Conversion loses nothing when every position is exactly `[lng, lat]`. */
  lemma {:induction false} RingRoundTrip(ring: seq<seq<real>>)
    requires forall j :: 0 <= j < |ring| ==> |ring[j]| == 2
    ensures ToRing(ToPath(ring)) == ring
  {
    if ring != [] {
      RingRoundTrip(ring[1..]);
      assert ToPosition(ToLatLng(ring[0])) == ring[0];
    }
  }

  lemma {:induction false} PathsRoundTrip(paths: seq<seq<LatLng>>)
    ensures ToPaths(ToRings(paths)) == paths
  {
    if paths != [] {
      PathRoundTrip(paths[0]);
      PathsRoundTrip(paths[1..]);
    }
  }

  lemma {:induction false} RingsRoundTrip(rings: seq<seq<seq<real>>>)
    requires forall r, j :: 0 <= r < |rings| && 0 <= j < |rings[r]| ==> |rings[r][j]| == 2
    ensures ToRings(ToPaths(rings)) == rings
  {
    if rings != [] {
      RingRoundTrip(rings[0]);
      RingsRoundTrip(rings[1..]);
    }
  }
}
