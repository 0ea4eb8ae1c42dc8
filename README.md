# Fleet dashboard: map component and status cards

This project models two parts of a fleet-tracking web front end:

- **`GenericMap`** (components/generic-map.tsx) is a map widget that keeps one map-engine
  instance across re-renders. It holds the instance and two layers in three ref cells, and
  it runs three effects:
  - a mount effect that creates the map with one tile layer and, when markers are present
    at mount time, a marker group;
  - a feature effect that replaces the GeoJSON overlay and fits the viewport to it;
  - a marker effect that redraws the marker group's circles and fits the viewport to the
    markers.
- **The dashboard page's status aggregation** (app/main/dashboard/page.tsx) turns a list of
  vehicle records into six summary cards: running, stop, idle, never connected, offline and
  total. Each card has a key, a display name, a count and a colour.

The map engine is modelled abstractly in `MapComponent.GenericMap` (generic_map.dfy):
- `layers` maps a handle to every layer object created so far;
- `attached` lists the handles of the layers on the live map;
- the ref cells are optional handles.

The class invariant `Valid()` says the live map holds exactly one tile layer. Every attached
feature overlay or marker group is the one its ref cell holds, so at most one of each is
ever on the map (`LayerCounts`). The effects are methods on the class. Bounds and viewport
fitting live in geo.dfy (`Geo`). The dashboard page is in dashboard.dfy (`Dashboard`). There,
the page's `Map` is an insertion-ordered list of entries, and the `forEach` loop is a
`while` loop proved against `BucketCount`.

Two behaviours of the code may look unintended. The model follows the code:
- The marker viewport is fitted over **all** items, including those at latitude 0 or
  longitude 0 that are not drawn (generic-map.tsx:90-96), not only over the drawn ones.
- The marker group is created only by the mount effect, and only if `markers` has items
  at that moment (generic-map.tsx:32-34). Markers that arrive later are never drawn when
  no group was created (`ReconcileMarkers` then changes nothing).

## Model

| member | source | states |
|---|---|---|
| Geo.BoundsOf | components/generic-map.tsx:65 | the bounds of a list of positions: none exactly for the empty list, and otherwise a rectangle holding every position |
| Geo.BoundsOfIsLeast | components/generic-map.tsx:91-95 | the bounds are the smallest rectangle: any rectangle holding every position contains them |
| Geo.BoundsOfIsTight | components/generic-map.tsx:91-95 | each edge of the bounds is attained by some position |
| MapComponent.Fit | components/generic-map.tsx:65-66 | fitting to no positions keeps the viewport; fitting to some gives a rectangle holding all of them |
| MapComponent.FeatureGlyphs | components/generic-map.tsx:54-62 | the overlay has one glyph per feature, with the feature's geometry, and a popup exactly when `properties.name` is truthy, holding that name |
| MapComponent.GlyphPositions | components/generic-map.tsx:65 | every position of every glyph is among the overlay's positions; there are none exactly when every geometry is empty |
| MapComponent.FeatureViewportCoversFeatures | components/generic-map.tsx:53-66 | after installing a collection with at least one position, the viewport is a rectangle holding every position of every feature |
| MapComponent.GlyphPositionsOnlyGlyphs | components/generic-map.tsx:65 | the overlay's positions are only positions of its glyphs |
| MapComponent.FeatureViewportIsLeast | components/generic-map.tsx:65-66 | the feature viewport is the least rectangle: any rectangle holding every position of every feature contains it |
| MapComponent.MarkerColor | components/generic-map.tsx:81-82 | the circle colour is the colour code when it is non-empty and "blue" otherwise, never empty |
| MapComponent.MarkerCircles | components/generic-map.tsx:77-87 | at most one circle per item, each in the given colour and at non-zero coordinates |
| MapComponent.MarkerCirclesMembership | components/generic-map.tsx:77-87 | a circle is drawn if and only if it is the circle of an item whose latitude and longitude are both non-zero |
| MapComponent.MarkerCirclesAppend | components/generic-map.tsx:77-87 | circles follow the items' order: the circles of `a + b` are those of `a` followed by those of `b` |
| MapComponent.SkipsZeroItem | components/generic-map.tsx:77-87 | of an item at (10, 20) and one at (0, 0) in red, only the first is drawn, in red, with its name as popup |
| MapComponent.MarkerViewportCoversAllItems | components/generic-map.tsx:90-96 | with at least one item, the viewport is a rectangle holding every item, drawn or not |
| MapComponent.Detach | components/generic-map.tsx:48-50 | removing a layer takes exactly that layer off the map, keeps the others without repeats, and changes nothing when the layer is not on the map |
| MapComponent.CountOwned | components/generic-map.tsx:13-15 | when every layer of a kind on the map is the one a ref cell holds, there is one layer of that kind if the held one is attached and none otherwise |
| MapComponent.GenericMap.LayerCounts | components/generic-map.tsx:13-15 | a live map has exactly one tile layer and a removed map none; exactly one feature overlay is on the map when the ref's overlay is attached, none otherwise, and likewise for the marker group |
| MapComponent.GenericMap.constructor | components/generic-map.tsx:12-15 | the three ref cells start out null |
| MapComponent.GenericMap.Mount | components/generic-map.tsx:17-35 | without a surface or with a map already present nothing changes; otherwise a map appears at centre (0, 0), zoom 2, with one fresh OpenStreetMap tile layer first, and a fresh empty marker group exactly when there are items; no other layer is created or changed |
| MapComponent.GenericMap.CreateMap | components/generic-map.tsx:21-29 | a live map appears at centre (0, 0), zoom 2, holding exactly one fresh OpenStreetMap tile layer with its attribution |
| MapComponent.GenericMap.AddMarkerGroup | components/generic-map.tsx:33 | a fresh empty marker group is attached last and stored in the ref cell; nothing else is created |
| MapComponent.GenericMap.Unmount | components/generic-map.tsx:36-41 | the map is removed with every layer on it, no tile layer, overlay or group stays attached, and the layer ref cells keep their handles |
| MapComponent.GenericMap.ReconcileFeatures | components/generic-map.tsx:44-68 | without a map nothing changes; otherwise the previous overlay is removed, and a collection with features installs exactly one new overlay of its glyphs, creating no other layer, and fits the viewport, while an absent or empty one leaves no overlay and the viewport as it was; the marker group is untouched |
| MapComponent.GenericMap.DetachFeatureOverlay | components/generic-map.tsx:47-50 | the overlay the ref holds leaves the map and the ref keeps its handle |
| MapComponent.GenericMap.InstallFeatureOverlay | components/generic-map.tsx:54-63 | a fresh overlay of the glyphs is created, attached last and stored in the ref |
| MapComponent.GenericMap.FitBounds | components/generic-map.tsx:65-66 | the viewport is fitted to the bounds of the positions, or kept when there are none; no layer changes |
| MapComponent.GenericMap.ReconcileMarkers | components/generic-map.tsx:70-98 | without a map or a group nothing changes; otherwise the group holds exactly the circles of the plotted items, in order, in the marker colour, the viewport is fitted to all items when there are any, and nothing else changes |
| Dashboard.ReplaceWhitespaceRuns | app/main/dashboard/page.tsx:83 | replacing whitespace runs leaves no whitespace when the separator is not whitespace, and leaves whitespace-free text unchanged |
| Dashboard.ReplaceRunBetween | app/main/dashboard/page.tsx:83 | between two words, a whitespace run of any length becomes a single separator |
| Dashboard.ReplaceRunSplits | app/main/dashboard/page.tsx:83 | a whitespace run with no whitespace touching it on either side becomes exactly one separator, and the text on each side is replaced on its own, so every maximal run, however many the text holds, becomes one separator |
| Dashboard.DropWhitespaceAppend | app/main/dashboard/page.tsx:83 | dropping the leading run of text that ends in a non-whitespace character does not reach past that text |
| Dashboard.ToLower | app/main/dashboard/page.tsx:83 | the lower-cased text has the same length and no ASCII capital left, and text without capitals is unchanged |
| Dashboard.FormatStatus | app/main/dashboard/page.tsx:83 | a formatted status holds no whitespace |
| Dashboard.FormatFoldsCase | app/main/dashboard/page.tsx:83 | formatting a status without whitespace only folds its case |
| Dashboard.FormatJoinsWords | app/main/dashboard/page.tsx:83 | two words with any whitespace run between them format as the lower-cased words joined by one underscore |
| Dashboard.NormalizeStatus | app/main/dashboard/page.tsx:81-92 | the normalised status is one of running, stop, idle, never_connected and offline |
| Dashboard.UnrecognisedIsOffline | app/main/dashboard/page.tsx:85-91 | a status whose formatted form is not running, stop, idle or never_connected is counted as offline |
| Dashboard.KeptSpellings | app/main/dashboard/page.tsx:83-89 | a one-word kept status in any mix of case is counted in its own lower-case bucket |
| Dashboard.NormalizeIdempotent | app/main/dashboard/page.tsx:81-92 | normalising twice is normalising once |
| Dashboard.NeverConnectedSpellings | app/main/dashboard/page.tsx:83-89 | "never" and "connected" in any case, with any whitespace run between them, are counted as never_connected |
| Dashboard.ColorForStatus | app/main/dashboard/page.tsx:95-106 | the colour is always one of the six table colours, and a status whose lower-cased form is not in the table gets the default #6b7280 |
| Dashboard.ColorIgnoresCase | app/main/dashboard/page.tsx:105 | the colour does not depend on the case of the status |
| Dashboard.CardColors | app/main/dashboard/page.tsx:96-103 | each card's status gets its own colour from the table |
| Dashboard.UnderscoresToSpaces | app/main/dashboard/page.tsx:71 | every underscore becomes a space, no underscore is left, and every other character is kept |
| Dashboard.CapitalizeWords | app/main/dashboard/page.tsx:72 | the first word character of every word is upper-cased, every other character is kept, and word boundaries do not move |
| Dashboard.CapitalizeAroundBreak | app/main/dashboard/page.tsx:72 | the text either side of a non-word character is capitalised independently |
| Dashboard.CapitalizeWord | app/main/dashboard/page.tsx:72 | a lower-case word has exactly its first letter upper-cased |
| Dashboard.CardNameOfWord | app/main/dashboard/page.tsx:70-73 | a one-word status is named by the word with its first letter upper-cased |
| Dashboard.CardNameOfTwoWords | app/main/dashboard/page.tsx:70-73 | a status `a_b` is named by the capitalised words joined by one space |
| Dashboard.CardNameRoundTrip | app/main/dashboard/page.tsx:69-73 | formatting a card's name gives back the card's key |
| Dashboard.IndexOf | app/main/dashboard/page.tsx:53-54 | the index of the first entry with the key, or -1 exactly when no entry has it |
| Dashboard.Set | app/main/dashboard/page.tsx:55-64 | setting a key already in the map replaces its entry in place and keeps every other entry; a new key goes last |
| Dashboard.GetAfterSet | app/main/dashboard/page.tsx:53-64 | after setting a key, the map has the key and reads back the count just set |
| Dashboard.GetDynamicCardsData | app/main/dashboard/page.tsx:33-78 | six cards in the map's creation order, each keyed by its status, named and coloured from it; each of the first five counts the records normalised to its status, and the total counts every record |
| Dashboard.CountRecord | app/main/dashboard/page.tsx:46-65 | one record adds one to exactly one of the five buckets (the one its normalised status names) and one to the total, and the map keeps its six statuses in order |
| Dashboard.CountOneMore | app/main/dashboard/page.tsx:53-55 | counting one more record adds one to its bucket's count and leaves the other buckets' counts unchanged |
| Dashboard.KeysAreFormatted | app/main/dashboard/page.tsx:69 | each card's key is its status unchanged |
| Dashboard.ExactlyOneBucket | app/main/dashboard/page.tsx:50-61 | every record lands in exactly one of the five buckets |
| Dashboard.BucketsSumToTotal | app/main/dashboard/page.tsx:46-65 | the five bucket counts add up to the total, the number of records |
| Dashboard.CountLast | app/main/dashboard/page.tsx:46-65 | a record added at the end adds one to its own bucket's count and nothing to any other |
| Dashboard.FormatUnknown | app/main/dashboard/page.tsx:47 | the fallback status "Unknown" formats as "unknown" |
| Dashboard.MissingStatusIsOffline | app/main/dashboard/page.tsx:47-50 | a record with a missing or empty status is counted as offline |

## Left out

- Rendering: the JSX, the container `className`, the card grid and the table columns are not modelled.
- Setting up the dashboard page is not modelled: `loadDashboard`, its fetch and error logging, the state setters, `useDashboard`, `useAuth` and the site configuration. `GetDynamicCardsData` takes the records as a parameter.
- The page's first, unused `statusColorMapping` (page.tsx:22-27) is not modelled.
- React scheduling is not modelled. The effects are methods that the caller invokes in the order React would, and `memo` and `useMemo` caching are left out.
- Mount: whether the rendering surface (`mapRef.current`) exists is a boolean parameter.
- The map engine's internals are not modelled: tile fetching, marker icons, popups opening on click, and the padding and animation of `fitBounds`. A popup is kept as the text bound to a glyph.
- Circle styling is not modelled. The radius 5 and fill opacity 0.5 are left out; the stroke and fill colours are one colour.
- Numbers are reals. NaN, `undefined` and non-numeric coordinates are not modelled, so an item is drawn exactly when both coordinates are non-zero.
- GeoJSON is reduced to Point geometries and paths of positions. Null geometries, nested multi-geometries, and names that are not strings are not modelled.
- MapComponent.Fit: for a collection whose geometries have no positions, the model keeps the viewport. The map engine does not: `fitBounds` throws on empty bounds, after the new overlay has been attached (generic-map.tsx:63-66). The effect then ends with the overlay on the map and the viewport unchanged, and the model's state after `ReconcileFeatures` matches it, but the thrown error is not modelled.
- Vehicle records are reduced to `position.status.status`. A status that is present but not a string is not modelled.
- `toLowerCase` and `toUpperCase` are modelled on ASCII letters only; other scripts keep their case. `\w` and `\b` are modelled on ASCII word characters, as JavaScript defines them without the `u` flag.
- Dashboard.ColorForStatus: lookups of inherited object keys (for example "constructor") are not modelled; every key outside the table gets the default colour.
