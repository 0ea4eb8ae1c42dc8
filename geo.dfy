/**
  Geographic positions and the rectangular extents the map engine frames its viewport on.
  BoundsOf is the one viewport-fitting computation both reconcilers of the map component use:
  the engine's `getBounds`, which starts from the first position and extends the rectangle
  by every further one.
 */
module Geo {
  import opened Wrappers

  /** A position in degrees. */
  datatype LatLng = LatLng(lat: real, lng: real)

  /** A rectangle: latitudes from south to north, longitudes from west to east. */
  datatype Bounds = Bounds(south: real, west: real, north: real, east: real)

  predicate Contains(b: Bounds, p: LatLng)
  {
    b.south <= p.lat <= b.north && b.west <= p.lng <= b.east
  }

  /** Every position of `b` lies inside `outer`. */
  predicate Within(b: Bounds, outer: Bounds)
  {
    outer.south <= b.south && b.north <= outer.north && outer.west <= b.west && b.east <= outer.east
  }

  function Min(a: real, b: real): real { if a <= b then a else b }

  function Max(a: real, b: real): real { if a <= b then b else a }

  /** The rectangle of a single position. */
  function PointBounds(p: LatLng): (r: Bounds)
    ensures Contains(r, p)
  {
    Bounds(p.lat, p.lng, p.lat, p.lng)
  }

  /** `b` grown just enough to take in `p`. */
  function Extend(b: Bounds, p: LatLng): (r: Bounds)
    ensures Contains(r, p) && Within(b, r)
  {
    Bounds(Min(b.south, p.lat), Min(b.west, p.lng), Max(b.north, p.lat), Max(b.east, p.lng))
  }

  /**
    The bounds of a sequence of positions, built as the engine builds them: the first
    position's rectangle, extended by each later position in turn. There are no bounds of
    no positions.
   */
  function BoundsOf(pts: seq<LatLng>): (r: Option<Bounds>)
    ensures r.None? <==> pts == []
    ensures r.Some? ==> forall i :: 0 <= i < |pts| ==> Contains(r.value, pts[i])
  {
    if pts == [] then None
    else if |pts| == 1 then Some(PointBounds(pts[0]))
    else
      var b := BoundsOf(pts[..|pts| - 1]).value;
      assert forall i :: 0 <= i < |pts| - 1 ==> pts[i] == pts[..|pts| - 1][i];
      Some(Extend(b, pts[|pts| - 1]))
  }

  /** BoundsOf is the least rectangle covering the positions: any rectangle that covers them all covers it. */
  lemma {:induction false} BoundsOfIsLeast(pts: seq<LatLng>, outer: Bounds)
    requires pts != []
    requires forall i :: 0 <= i < |pts| ==> Contains(outer, pts[i])
    ensures Within(BoundsOf(pts).value, outer)
  {
    if |pts| > 1 {
      var init := pts[..|pts| - 1];
      assert forall i :: 0 <= i < |init| ==> init[i] == pts[i];
      BoundsOfIsLeast(init, outer);
    }
  }

  /** Each edge of BoundsOf is attained by one of the positions, so no edge can be pulled in. */
  lemma {:induction false} BoundsOfIsTight(pts: seq<LatLng>)
    requires pts != []
    ensures exists i :: 0 <= i < |pts| && pts[i].lat == BoundsOf(pts).value.south
    ensures exists i :: 0 <= i < |pts| && pts[i].lat == BoundsOf(pts).value.north
    ensures exists i :: 0 <= i < |pts| && pts[i].lng == BoundsOf(pts).value.west
    ensures exists i :: 0 <= i < |pts| && pts[i].lng == BoundsOf(pts).value.east
  {
    var n := |pts| - 1;
    if n > 0 {
      var init := pts[..n];
      BoundsOfIsTight(init);
      var b := BoundsOf(init).value;
      var s :| 0 <= s < |init| && init[s].lat == b.south;
      var t :| 0 <= t < |init| && init[t].lat == b.north;
      var w :| 0 <= w < |init| && init[w].lng == b.west;
      var e :| 0 <= e < |init| && init[e].lng == b.east;
      assert init[s] == pts[s] && init[t] == pts[t] && init[w] == pts[w] && init[e] == pts[e];
      var r := BoundsOf(pts).value;
      assert r == Extend(b, pts[n]);
      if r.south == pts[n].lat { assert pts[n].lat == r.south; } else { assert pts[s].lat == r.south; }
      if r.north == pts[n].lat { assert pts[n].lat == r.north; } else { assert pts[t].lat == r.north; }
      if r.west == pts[n].lng { assert pts[n].lng == r.west; } else { assert pts[w].lng == r.west; }
      if r.east == pts[n].lng { assert pts[n].lng == r.east; } else { assert pts[e].lng == r.east; }
    } else {
      assert pts[0].lat == BoundsOf(pts).value.south;
      assert pts[0].lat == BoundsOf(pts).value.north;
      assert pts[0].lng == BoundsOf(pts).value.west;
      assert pts[0].lng == BoundsOf(pts).value.east;
    }
  }
}
