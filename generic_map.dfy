/**
  The map component `GenericMap` (components/generic-map.tsx): one map-engine instance held
  across re-renders in three mutable ref cells, and three effects that keep the engine's
  layers in step with the `geojsonData` and `markers` props.

  The engine itself is modelled abstractly. Every layer object the component has created is
  kept in `layers` under a handle; `attached` lists the handles of the layers currently on the
  live map, in the order they were added. The ref cells hold handles, and, as in the source,
  a handle stays in its ref cell after its layer has been taken off the map.
 */
module MapComponent {
  import opened Wrappers
  import opened Geo

  /** Handle of a layer object created by the engine. */
  type LayerId = nat

  /**
    A GeoJSON geometry as the feature overlay draws it: a Point becomes a marker glyph
    (the `pointToLayer` option), every other geometry a vector path over its positions.
   */
  datatype Geometry = Point(at: LatLng) | Path(positions: seq<LatLng>)

  /** A GeoJSON Feature; `name` is `properties.name`, None when properties or name are absent. */
  datatype Feature = Feature(name: Option<string>, geometry: Geometry)

  datatype FeatureCollection = FeatureCollection(features: seq<Feature>)

  /** One glyph of the feature overlay, with the popup bound to it, if any. */
  datatype Glyph = Glyph(geometry: Geometry, popup: Option<string>)

  /** One record of the `markers.items` prop. */
  datatype MarkerItem = MarkerItem(name: string, latitude: real, longitude: real)

  /** The `markers` prop; a caller that passes none gets `Markers("", [])`. */
  datatype Markers = Markers(colorCode: string, items: seq<MarkerItem>)

  /** A circle glyph of the marker group: its centre, its stroke and fill colour and its popup text. */
  datatype Circle = Circle(at: LatLng, color: string, popup: string)

  /** The layer objects the component creates: the tile layer, a feature overlay, the marker group. */
  datatype Layer =
    | Tiles(url: string, attribution: string)
    | Features(glyphs: seq<Glyph>)
    | Group(circles: seq<Circle>)

  datatype LayerKind = TileKind | FeatureKind | GroupKind

  /** What the map shows: the initial centre and zoom, or the last rectangle it was fitted to. */
  datatype Viewport = CenterZoom(center: LatLng, zoom: nat) | Fitted(bounds: Bounds)

  const TileUrl := "https://{s}.tile.openstreetmap.org/{z}/{x}/{y}.png"
  const Attribution :=
    "&copy; <a href=\"https://www.openstreetmap.org/copyright\">OpenStreetMap</a> contributors"
  const InitialView := CenterZoom(LatLng(0.0, 0.0), 2)
  const DefaultMarkerColor := "blue"

  function KindOf(l: Layer): LayerKind
  {
    match l
    case Tiles(_, _) => TileKind
    case Features(_) => FeatureKind
    case Group(_) => GroupKind
  }

  // ---------------------------------------------------------------------------------------
  // Viewport fitting, shared by both reconcilers

  /** Fit the viewport to the bounds of `pts`; with no positions there are no bounds and the viewport stays. */
  function Fit(pts: seq<LatLng>, current: Viewport): (v: Viewport)
    ensures pts == [] ==> v == current
    ensures pts != [] ==> v.Fitted? && forall i :: 0 <= i < |pts| ==> Contains(v.bounds, pts[i])
  {
    match BoundsOf(pts)
    case None => current
    case Some(b) => Fitted(b)
  }

  // ---------------------------------------------------------------------------------------
  // The feature overlay

  /** A `properties.name` is truthy when it is present and not the empty string. */
  predicate Truthy(name: Option<string>)
  {
    name.Some? && name.value != ""
  }

  function GlyphOf(f: Feature): Glyph
  {
    Glyph(f.geometry, if Truthy(f.name) then f.name else None)
  }

  /** The glyphs of the overlay built from `features`: one per feature, a popup exactly for the named ones. */
  function FeatureGlyphs(features: seq<Feature>): (r: seq<Glyph>)
    ensures |r| == |features|
    ensures forall i :: 0 <= i < |r| ==> r[i].geometry == features[i].geometry
    ensures forall i :: 0 <= i < |r| ==> (r[i].popup.Some? <==> Truthy(features[i].name))
    ensures forall i :: 0 <= i < |r| && r[i].popup.Some? ==> r[i].popup == features[i].name
  {
    seq(|features|, i requires 0 <= i < |features| => GlyphOf(features[i]))
  }

  function Positions(g: Geometry): seq<LatLng>
  {
    match g
    case Point(p) => [p]
    case Path(ps) => ps
  }

  /** Every position of every glyph, the positions the overlay's bounds are taken over. */
  function GlyphPositions(glyphs: seq<Glyph>): (r: seq<LatLng>)
    ensures forall i, j :: 0 <= i < |glyphs| && 0 <= j < |Positions(glyphs[i].geometry)| ==>
      Positions(glyphs[i].geometry)[j] in r
    ensures r == [] <==> forall i :: 0 <= i < |glyphs| ==> Positions(glyphs[i].geometry) == []
  {
    if glyphs == [] then []
    else
      var rest := GlyphPositions(glyphs[1..]);
      assert forall i :: 1 <= i < |glyphs| ==> glyphs[i] == glyphs[1..][i - 1];
      Positions(glyphs[0].geometry) + rest
  }

  /** The overlay's positions are only those of its glyphs. */
  lemma {:induction false} GlyphPositionsOnlyGlyphs(glyphs: seq<Glyph>, p: LatLng)
    requires p in GlyphPositions(glyphs)
    ensures exists i, j :: 0 <= i < |glyphs| && 0 <= j < |Positions(glyphs[i].geometry)| && Positions(glyphs[i].geometry)[j] == p
  {
    var first := Positions(glyphs[0].geometry);
    var rest := GlyphPositions(glyphs[1..]);
    assert GlyphPositions(glyphs) == first + rest;
    if p in first {
      var j :| 0 <= j < |first| && first[j] == p;
    } else {
      assert p in rest;
      GlyphPositionsOnlyGlyphs(glyphs[1..], p);
      var i, j :| 0 <= i < |glyphs[1..]| && 0 <= j < |Positions(glyphs[1..][i].geometry)| && Positions(glyphs[1..][i].geometry)[j] == p;
      assert glyphs[1..][i] == glyphs[i + 1];
    }
  }

  predicate HasFeatures(data: Option<FeatureCollection>)
  {
    data.Some? && |data.value.features| > 0
  }

  /**
    Once a collection with at least one position is installed, the viewport is a rectangle
    holding every position of every feature.
   */
  lemma FeatureViewportCoversFeatures(features: seq<Feature>, current: Viewport)
    requires exists i :: 0 <= i < |features| && Positions(features[i].geometry) != []
    ensures Fit(GlyphPositions(FeatureGlyphs(features)), current).Fitted?
    ensures forall i, j :: 0 <= i < |features| && 0 <= j < |Positions(features[i].geometry)| ==>
      Contains(Fit(GlyphPositions(FeatureGlyphs(features)), current).bounds, Positions(features[i].geometry)[j])
  {
    var glyphs := FeatureGlyphs(features);
    var pts := GlyphPositions(glyphs);
    var k :| 0 <= k < |features| && Positions(features[k].geometry) != [];
    assert Positions(glyphs[k].geometry) != [];
    var v := Fit(pts, current);
    forall i, j | 0 <= i < |features| && 0 <= j < |Positions(features[i].geometry)|
      ensures Contains(v.bounds, Positions(features[i].geometry)[j])
    {
      assert glyphs[i].geometry == features[i].geometry;
      var p := Positions(glyphs[i].geometry)[j];
      var n :| 0 <= n < |pts| && pts[n] == p;
    }
  }

  /**
    The feature viewport is the least such rectangle: any rectangle holding every position of
    every feature contains it.
   */
  lemma FeatureViewportIsLeast(features: seq<Feature>, current: Viewport, outer: Bounds)
    requires exists i :: 0 <= i < |features| && Positions(features[i].geometry) != []
    requires forall i, j :: 0 <= i < |features| && 0 <= j < |Positions(features[i].geometry)| ==>
      Contains(outer, Positions(features[i].geometry)[j])
    ensures Within(Fit(GlyphPositions(FeatureGlyphs(features)), current).bounds, outer)
  {
    var glyphs := FeatureGlyphs(features);
    var pts := GlyphPositions(glyphs);
    FeatureViewportCoversFeatures(features, current);
    forall n | 0 <= n < |pts|
      ensures Contains(outer, pts[n])
    {
      GlyphPositionsOnlyGlyphs(glyphs, pts[n]);
      var i, j :| 0 <= i < |glyphs| && 0 <= j < |Positions(glyphs[i].geometry)| && Positions(glyphs[i].geometry)[j] == pts[n];
      assert glyphs[i].geometry == features[i].geometry;
    }
    BoundsOfIsLeast(pts, outer);
  }

  // ---------------------------------------------------------------------------------------
  // The marker group

  /** `markers.colorCode || 'blue'`. */
  function MarkerColor(colorCode: string): (c: string)
    ensures c != ""
    ensures colorCode != "" ==> c == colorCode
    ensures colorCode == "" ==> c == DefaultMarkerColor
  {
    if colorCode == "" then DefaultMarkerColor else colorCode
  }

  /** An item is drawn only when its latitude and its longitude are both truthy, that is non-zero. */
  predicate Plotted(item: MarkerItem)
  {
    item.latitude != 0.0 && item.longitude != 0.0
  }

  function CircleFor(item: MarkerItem, color: string): Circle
  {
    Circle(LatLng(item.latitude, item.longitude), color, item.name)
  }

  /** The circles the marker group holds after reconciling with `items`. */
  function MarkerCircles(items: seq<MarkerItem>, color: string): (r: seq<Circle>)
    ensures |r| <= |items|
    ensures forall k :: 0 <= k < |r| ==> r[k].color == color && r[k].at.lat != 0.0 && r[k].at.lng != 0.0
  {
    if items == [] then []
    else
      var last := items[|items| - 1];
      MarkerCircles(items[..|items| - 1], color) + (if Plotted(last) then [CircleFor(last, color)] else [])
  }

  /** A circle is in the group exactly when it is the circle of some plotted item. */
  lemma {:induction false} MarkerCirclesMembership(items: seq<MarkerItem>, color: string, c: Circle)
    ensures c in MarkerCircles(items, color) <==>
      exists i :: 0 <= i < |items| && Plotted(items[i]) && c == CircleFor(items[i], color)
  {
    if items != [] {
      var init := items[..|items| - 1];
      MarkerCirclesMembership(init, color, c);
      assert forall i :: 0 <= i < |init| ==> init[i] == items[i];
      if c in MarkerCircles(init, color) {
        var i :| 0 <= i < |init| && Plotted(init[i]) && c == CircleFor(init[i], color);
        assert Plotted(items[i]) && c == CircleFor(items[i], color);
      }
    }
  }

  /** The group's circles follow the items' order: reconciling `a + b` draws `a`'s circles, then `b`'s. */
  lemma {:induction false} MarkerCirclesAppend(a: seq<MarkerItem>, b: seq<MarkerItem>, color: string)
    ensures MarkerCircles(a + b, color) == MarkerCircles(a, color) + MarkerCircles(b, color)
  {
    if b == [] {
      assert a + b == a;
    } else {
      var last := b[|b| - 1];
      assert (a + b)[..|a + b| - 1] == a + b[..|b| - 1];
      MarkerCirclesAppend(a, b[..|b| - 1], color);
    }
  }

  function ItemPositions(items: seq<MarkerItem>): (r: seq<LatLng>)
    ensures |r| == |items|
    ensures forall i :: 0 <= i < |items| ==> r[i] == LatLng(items[i].latitude, items[i].longitude)
  {
    seq(|items|, i requires 0 <= i < |items| => LatLng(items[i].latitude, items[i].longitude))
  }

  /**
    The marker viewport is fitted over every item, plotted or not: an item at latitude 0 or
    longitude 0 that is not drawn still lies inside the rectangle.
   */
  lemma MarkerViewportCoversAllItems(items: seq<MarkerItem>, current: Viewport)
    requires items != []
    ensures Fit(ItemPositions(items), current).Fitted?
    ensures forall i :: 0 <= i < |items| ==>
      Contains(Fit(ItemPositions(items), current).bounds, LatLng(items[i].latitude, items[i].longitude))
  {
  }

  // ---------------------------------------------------------------------------------------
  // Handle lists

  /** No handle occurs twice. */
  predicate Distinct(ids: seq<LayerId>)
  {
    forall i, j :: 0 <= i < j < |ids| ==> ids[i] != ids[j]
  }

  /** The map's layer list after `remove()` on the layer `id`: taken out if present, the rest in order. */
  function Detach(ids: seq<LayerId>, id: LayerId): (r: seq<LayerId>)
    ensures forall x :: x in r <==> x in ids && x != id
    ensures Distinct(ids) ==> Distinct(r)
    ensures |ids| > 0 && ids[0] != id ==> |r| > 0 && r[0] == ids[0]
    ensures id !in ids ==> r == ids
  {
    if ids == [] then []
    else if ids[0] == id then Detach(ids[1..], id)
    else
      var rest := Detach(ids[1..], id);
      assert Distinct(ids) ==> ids[0] !in ids[1..];
      [ids[0]] + rest
  }

  /** `remove()` on the layer a ref cell holds, if it holds one. */
  function DetachHandle(ids: seq<LayerId>, ref: Option<LayerId>): seq<LayerId>
  {
    if ref.Some? then Detach(ids, ref.value) else ids
  }

  /** How many of the layers `ids` are of kind `k`. */
  function CountKind(ids: seq<LayerId>, layers: map<LayerId, Layer>, k: LayerKind): nat
    requires forall x :: x in ids ==> x in layers
  {
    if ids == [] then 0
    else (if KindOf(layers[ids[0]]) == k then 1 else 0) + CountKind(ids[1..], layers, k)
  }

  /**
    When every layer of kind `k` in a list without repeats is the one `owner` holds, the list
    has one layer of that kind if the owner's layer is in it, and none otherwise.
   */
  lemma {:induction false} CountOwned(ids: seq<LayerId>, layers: map<LayerId, Layer>, k: LayerKind, owner: Option<LayerId>)
    requires forall x :: x in ids ==> x in layers
    requires Distinct(ids)
    requires owner.Some? && owner.value in layers ==> KindOf(layers[owner.value]) == k
    requires forall x :: x in ids && KindOf(layers[x]) == k ==> owner == Some(x)
    ensures CountKind(ids, layers, k) == if owner.Some? && owner.value in ids then 1 else 0
  {
    if ids != [] {
      var rest := ids[1..];
      assert forall x :: x in rest ==> x in ids;
      assert forall i, j :: 0 <= i < j < |rest| ==> rest[i] == ids[i + 1] && rest[j] == ids[j + 1];
      if owner == Some(ids[0]) {
        assert ids[0] !in rest;
        CountOwned(rest, layers, k, None);
      } else {
        CountOwned(rest, layers, k, owner);
      }
    }
  }

  // ---------------------------------------------------------------------------------------
  // The component

  class GenericMap {
    /** `mapInstanceRef.current != null`: the live map exists. */
    var mapLive: bool
    /** Handles of the layers on the live map, in the order added. */
    var attached: seq<LayerId>
    /** Every layer object created so far, attached or not. */
    var layers: map<LayerId, Layer>
    /** The handle the engine gives the next layer it creates. */
    var nextId: LayerId
    var viewport: Viewport
    /** `geoJsonLayerRef.current`. */
    var geoJsonRef: Option<LayerId>
    /** `markerLayerRef.current`. */
    var markerRef: Option<LayerId>

    /**
      The engine and the ref cells agree: a live map holds its one tile layer first; every
      attached feature overlay is the one `geoJsonRef` holds and every attached marker group
      the one `markerRef` holds, so no stale overlay is left on the map.
     */
    ghost predicate Valid()
      reads this
    {
      && (forall id :: id in layers ==> id < nextId)
      && (forall id :: id in attached ==> id in layers)
      && Distinct(attached)
      && (geoJsonRef.Some? ==> geoJsonRef.value in layers && layers[geoJsonRef.value].Features?)
      && (markerRef.Some? ==> markerRef.value in layers && layers[markerRef.value].Group?)
      && (mapLive <==> attached != [])
      && (mapLive ==> layers[attached[0]].Tiles?)
      && (forall id :: id in attached && layers[id].Tiles? ==> id == attached[0])
      && (forall id :: id in attached && layers[id].Features? ==> geoJsonRef == Some(id))
      && (forall id :: id in attached && layers[id].Group? ==> markerRef == Some(id))
    }

    /** The glyphs of the feature overlay on the map, if one is attached. */
    function FeatureOverlay(): Option<seq<Glyph>>
      reads this
      requires Valid()
    {
      if geoJsonRef.Some? && geoJsonRef.value in attached then Some(layers[geoJsonRef.value].glyphs) else None
    }

    /** The circles of the marker group on the map, if it is attached. */
    function MarkerOverlay(): Option<seq<Circle>>
      reads this
      requires Valid()
    {
      if markerRef.Some? && markerRef.value in attached then Some(layers[markerRef.value].circles) else None
    }

    function TileLayerCount(): nat
      reads this
      requires Valid()
    {
      CountKind(attached, layers, TileKind)
    }

    function FeatureLayerCount(): nat
      reads this
      requires Valid()
    {
      CountKind(attached, layers, FeatureKind)
    }

    function MarkerGroupCount(): nat
      reads this
      requires Valid()
    {
      CountKind(attached, layers, GroupKind)
    }

    /**
      A live map has exactly one tile layer and a dead one none; at most one feature overlay
      and at most one marker group are ever attached.
     */
    lemma LayerCounts()
      requires Valid()
      ensures TileLayerCount() == if mapLive then 1 else 0
      ensures FeatureLayerCount() == if FeatureOverlay().Some? then 1 else 0
      ensures MarkerGroupCount() == if MarkerOverlay().Some? then 1 else 0
    {
      CountOwned(attached, layers, TileKind, if mapLive then Some(attached[0]) else None);
      CountOwned(attached, layers, FeatureKind, geoJsonRef);
      CountOwned(attached, layers, GroupKind, markerRef);
    }

    /** The three ref cells start out null. */
    constructor ()
      ensures Valid()
      ensures !mapLive && attached == [] && layers == map[] && nextId == 0
      ensures geoJsonRef == None && markerRef == None
    {
      mapLive := false;
      attached := [];
      layers := map[];
      nextId := 0;
      viewport := InitialView;
      geoJsonRef := None;
      markerRef := None;
    }

    /**
      The mount effect. With a rendering surface and no map yet, it creates the map at the
      initial centre and zoom with one tile layer, and, only when `markers` has items at that
      moment, the marker group; otherwise it does nothing.
     */
    method Mount(surfaceReady: bool, markers: Markers)
      requires Valid()
      modifies this
      ensures Valid()
      ensures !surfaceReady || old(mapLive) ==> unchanged(this)
      ensures surfaceReady && !old(mapLive) ==> mapLive && viewport == InitialView
      ensures surfaceReady && !old(mapLive) ==>
        layers[attached[0]] == Tiles(TileUrl, Attribution) && TileLayerCount() == 1
      ensures surfaceReady && !old(mapLive) ==> geoJsonRef == old(geoJsonRef) && FeatureOverlay() == None
      ensures surfaceReady && !old(mapLive) ==>
        (forall id :: id in old(layers) ==> id in layers && layers[id] == old(layers)[id])
        && (forall id :: id in attached ==> id !in old(layers))
      ensures surfaceReady && !old(mapLive) && |markers.items| > 0 ==>
        |attached| == 2 && markerRef == Some(attached[1]) && MarkerOverlay() == Some([])
      ensures surfaceReady && !old(mapLive) && |markers.items| > 0 ==>
        && attached == [old(nextId), old(nextId) + 1] && nextId == old(nextId) + 2
        && layers == old(layers)[old(nextId) := Tiles(TileUrl, Attribution)][old(nextId) + 1 := Group([])]
      ensures surfaceReady && !old(mapLive) && |markers.items| == 0 ==>
        |attached| == 1 && markerRef == old(markerRef) && MarkerOverlay() == None
      ensures surfaceReady && !old(mapLive) && |markers.items| == 0 ==>
        && attached == [old(nextId)] && nextId == old(nextId) + 1
        && layers == old(layers)[old(nextId) := Tiles(TileUrl, Attribution)]
    {
      if !surfaceReady || mapLive {
        return;
      }
      CreateMap();
      if |markers.items| > 0 {
        AddMarkerGroup();
      }
      LayerCounts();
    }

    /** `L.map(...)` with the tile layer added: a live map at the initial view holding one fresh tile layer. */
    method CreateMap()
      requires Valid() && !mapLive
      modifies this
      ensures Valid() && mapLive && viewport == InitialView
      ensures attached == [old(nextId)] && nextId == old(nextId) + 1
      ensures layers == old(layers)[old(nextId) := Tiles(TileUrl, Attribution)]
      ensures geoJsonRef == old(geoJsonRef) && markerRef == old(markerRef)
    {
      var tiles := nextId;
      nextId := nextId + 1;
      layers := layers[tiles := Tiles(TileUrl, Attribution)];
      attached := [tiles];
      mapLive := true;
      viewport := InitialView;
    }

    /** `L.layerGroup().addTo(map)` stored in `markerLayerRef`: a fresh empty group, attached last. */
    method AddMarkerGroup()
      requires Valid() && mapLive && MarkerOverlay() == None
      modifies this
      ensures Valid() && mapLive && viewport == old(viewport)
      ensures attached == old(attached) + [old(nextId)] && nextId == old(nextId) + 1
      ensures layers == old(layers)[old(nextId) := Group([])]
      ensures geoJsonRef == old(geoJsonRef) && markerRef == Some(old(nextId))
    {
      var group := nextId;
      nextId := nextId + 1;
      layers := layers[group := Group([])];
      assert group !in attached;
      attached := attached + [group];
      markerRef := Some(group);
    }

    /**
      The teardown of the mount effect: the map is removed, taking every layer with it, and
      `mapInstanceRef` is reset so that a later mount creates a fresh map. The layer ref cells
      keep their handles, as in the source.
     */
    method Unmount()
      requires Valid()
      modifies this
      ensures Valid()
      ensures !mapLive && attached == []
      ensures TileLayerCount() == 0 && FeatureOverlay() == None && MarkerOverlay() == None
      ensures layers == old(layers) && nextId == old(nextId) && viewport == old(viewport)
      ensures geoJsonRef == old(geoJsonRef) && markerRef == old(markerRef)
    {
      if mapLive {
        attached := [];
        mapLive := false;
      }
    }

    /**
      The `geojsonData` effect. Without a map it does nothing. Otherwise it first removes the
      overlay `geoJsonRef` holds, then, for a collection with features, installs a new overlay
      of its glyphs and fits the viewport to its bounds; for an absent or empty collection
      nothing is installed and the viewport stays.
     */
    method ReconcileFeatures(data: Option<FeatureCollection>)
      requires Valid()
      modifies this
      ensures Valid()
      ensures !old(mapLive) ==> unchanged(this)
      ensures old(mapLive) ==> mapLive && markerRef == old(markerRef) && MarkerOverlay() == old(MarkerOverlay())
      ensures old(mapLive) ==> forall id :: id in old(layers) ==> id in layers && layers[id] == old(layers)[id]
      ensures old(mapLive) && HasFeatures(data) ==>
        && geoJsonRef == Some(old(nextId))
        && attached == DetachHandle(old(attached), old(geoJsonRef)) + [old(nextId)]
        && layers == old(layers)[old(nextId) := Features(FeatureGlyphs(data.value.features))]
        && nextId == old(nextId) + 1
        && FeatureOverlay() == Some(FeatureGlyphs(data.value.features))
        && FeatureLayerCount() == 1
        && viewport == Fit(GlyphPositions(FeatureGlyphs(data.value.features)), old(viewport))
      ensures old(mapLive) && !HasFeatures(data) ==>
        && geoJsonRef == old(geoJsonRef)
        && nextId == old(nextId)
        && layers == old(layers)
        && attached == DetachHandle(old(attached), old(geoJsonRef))
        && FeatureOverlay() == None
        && FeatureLayerCount() == 0
        && viewport == old(viewport)
    {
      if !mapLive {
        return;
      }
      DetachFeatureOverlay();
      if data.Some? && |data.value.features| > 0 {
        var glyphs := FeatureGlyphs(data.value.features);
        InstallFeatureOverlay(glyphs);
        FitBounds(GlyphPositions(glyphs));
      }
      LayerCounts();
    }

    /** `fitBounds` on the bounds of `pts`; with no positions there are no bounds to fit to. */
    method FitBounds(pts: seq<LatLng>)
      requires Valid()
      modifies this
      ensures Valid()
      ensures viewport == Fit(pts, old(viewport))
      ensures mapLive == old(mapLive) && attached == old(attached) && layers == old(layers) && nextId == old(nextId)
      ensures geoJsonRef == old(geoJsonRef) && markerRef == old(markerRef)
    {
      var bounds := BoundsOf(pts);
      if bounds.Some? {
        viewport := Fitted(bounds.value);
      }
    }

    /**
      `remove()` on the overlay `geoJsonRef` holds: it leaves the map if it is on it, and the
      ref cell keeps the handle.
     */
    method DetachFeatureOverlay()
      requires Valid()
      modifies this
      ensures Valid()
      ensures attached == DetachHandle(old(attached), geoJsonRef)
      ensures FeatureOverlay() == None && MarkerOverlay() == old(MarkerOverlay())
      ensures mapLive == old(mapLive) && layers == old(layers) && nextId == old(nextId) && viewport == old(viewport)
      ensures geoJsonRef == old(geoJsonRef) && markerRef == old(markerRef)
    {
      if geoJsonRef.Some? {
        attached := Detach(attached, geoJsonRef.value);
      }
    }

    /**
      A new overlay of `glyphs` is created, added to the map and stored in `geoJsonRef`. The
      map must hold no feature overlay: the previous one has to be removed first.
     */
    method InstallFeatureOverlay(glyphs: seq<Glyph>)
      requires Valid() && mapLive && FeatureOverlay() == None
      modifies this
      ensures Valid()
      ensures geoJsonRef == Some(old(nextId)) && attached == old(attached) + [old(nextId)]
      ensures layers == old(layers)[old(nextId) := Features(glyphs)] && nextId == old(nextId) + 1
      ensures FeatureOverlay() == Some(glyphs) && MarkerOverlay() == old(MarkerOverlay())
      ensures mapLive && viewport == old(viewport) && markerRef == old(markerRef)
    {
      var overlay := nextId;
      nextId := nextId + 1;
      layers := layers[overlay := Features(glyphs)];
      assert overlay !in attached;
      attached := attached + [overlay];
      geoJsonRef := Some(overlay);
    }

    /**
      The `markers` effect. Without a map or without a marker group it does nothing.
      Otherwise it empties the group, adds one circle per plotted item in the items' order,
      coloured with `colorCode` or blue, and, when there are items, fits the viewport to the
      bounds of all of them.
     */
    method ReconcileMarkers(markers: Markers)
      requires Valid()
      modifies this
      ensures Valid()
      ensures !old(mapLive) || old(markerRef).None? ==> unchanged(this)
      ensures old(mapLive) && old(markerRef).Some? ==>
        && mapLive && attached == old(attached) && nextId == old(nextId)
        && geoJsonRef == old(geoJsonRef) && markerRef == old(markerRef)
        && layers == old(layers)[old(markerRef).value := Group(MarkerCircles(markers.items, MarkerColor(markers.colorCode)))]
        && viewport == Fit(ItemPositions(markers.items), old(viewport))
    {
      if !mapLive || markerRef.None? {
        return;
      }
      var group := markerRef.value;
      layers := layers[group := Group([])];
      var color := MarkerColor(markers.colorCode);
      var i := 0;
      while i < |markers.items|
        invariant 0 <= i <= |markers.items|
        invariant layers == old(layers)[group := Group(MarkerCircles(markers.items[..i], color))]
        invariant mapLive == old(mapLive) && attached == old(attached) && nextId == old(nextId)
        invariant geoJsonRef == old(geoJsonRef) && markerRef == old(markerRef) && viewport == old(viewport)
      {
        var item := markers.items[i];
        assert markers.items[..i + 1][..i] == markers.items[..i];
        assert MarkerCircles(markers.items[..i + 1], color)
          == MarkerCircles(markers.items[..i], color) + (if Plotted(item) then [CircleFor(item, color)] else []);
        if item.latitude != 0.0 && item.longitude != 0.0 {
          var circle := Circle(LatLng(item.latitude, item.longitude), color, item.name);
          assert circle == CircleFor(item, color);
          layers := layers[group := Group(layers[group].circles + [circle])];
        } else {
          assert MarkerCircles(markers.items[..i], color) + [] == MarkerCircles(markers.items[..i], color);
        }
        assert layers == old(layers)[group := Group(MarkerCircles(markers.items[..i + 1], color))];
        i := i + 1;
      }
      assert markers.items[..i] == markers.items;
      if |markers.items| > 0 {
        viewport := Fitted(BoundsOf(ItemPositions(markers.items)).value);
      }
    }
  }

  /** A mount followed by a teardown leaves no layer on the map, and a second mount gets a fresh map. */
  method MountTeardownScenario()
  {
    var m := new GenericMap();
    m.Mount(true, Markers("", []));
    m.Unmount();
    assert m.TileLayerCount() == 0 && m.FeatureOverlay() == None && m.MarkerOverlay() == None;
    m.Mount(true, Markers("", []));
    assert m.mapLive && m.TileLayerCount() == 1;
  }

  /** The same collection reconciled twice leaves one overlay, and its point at (10, 20) is inside the viewport. */
  method FeatureScenario()
  {
    var m := new GenericMap();
    m.Mount(true, Markers("", []));
    var depot := LatLng(10.0, 20.0);
    var data := Some(FeatureCollection([Feature(Some("depot"), Point(depot))]));
    m.ReconcileFeatures(data);
    m.ReconcileFeatures(data);
    m.LayerCounts();
    assert m.FeatureLayerCount() == 1;
    var glyphs := FeatureGlyphs(data.value.features);
    assert glyphs == [Glyph(Point(depot), Some("depot"))];
    assert m.FeatureOverlay() == Some(glyphs);
    assert GlyphPositions(glyphs) == [depot];
    assert Contains(m.viewport.bounds, depot);
  }

  /** Of two marker items in red, the one at (0, 0) is not drawn and the other is drawn in red. */
  method MarkerScenario()
  {
    var m := new GenericMap();
    var markers := Markers("#ff0000", [MarkerItem("A", 10.0, 20.0), MarkerItem("B", 0.0, 0.0)]);
    m.Mount(true, markers);
    assert m.markerRef == Some(m.attached[1]);
    ghost var group := m.attached[1];
    m.ReconcileMarkers(markers);
    var drawn := Circle(LatLng(10.0, 20.0), "#ff0000", "A");
    SkipsZeroItem();
    assert m.markerRef == Some(group) && group in m.attached;
    assert m.MarkerOverlay() == Some([drawn]);
  }

  /** The circles of the two items above: only the first is drawn. */
  lemma SkipsZeroItem()
    ensures MarkerCircles([MarkerItem("A", 10.0, 20.0), MarkerItem("B", 0.0, 0.0)], MarkerColor("#ff0000"))
      == [Circle(LatLng(10.0, 20.0), "#ff0000", "A")]
  {
    var a := MarkerItem("A", 10.0, 20.0);
    var b := MarkerItem("B", 0.0, 0.0);
    assert MarkerColor("#ff0000") == "#ff0000";
    MarkerCirclesAppend([a], [b], "#ff0000");
    assert [a] + [b] == [a, b];
    assert MarkerCircles([a], "#ff0000") == [Circle(LatLng(10.0, 20.0), "#ff0000", "A")];
    assert MarkerCircles([b], "#ff0000") == [];
  }
}
