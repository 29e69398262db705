# Timeline layout and range synchronisation, modelled in Dafny

This project models the data preparation, lane layout and viewport logic of
the timeline component in `src/TimelineModel.js`:

- **Validation.** `timeline.data(items, dataRange)` keeps only the items
  whose `start` and `end` are both present with `end >= start`. Each kept
  item's steps are filtered the same way and its `instant` flag is cleared.
- **Lane layout.** The items are sorted in place with `compareDescending`.
  `sortBackward` then gives every item the first lane ("track") whose
  registry entry lets it in, and writes the item's start into that entry.
  `data.nTracks` is the number of lanes.
- **Domain.** `data.minDate`/`data.maxDate` come from an explicit
  `dataRange`, or else from the earliest start and the latest end.
- **Redraw.** `band.redraw` places each item's rectangle from the scaled
  start and end. An item whose span lies wholly left of pixel 0 or right of
  the band width is hidden in place.
- **Range sync.** `band.range` is the range the brush's `"brush"` handler
  last recorded. `updateBrushRange` moves the brush only for a new range
  whose two ends scale to numbers. The move fires the handler at once, so
  `band.range` becomes the moved-to range read back through `invert`.
  `updateRange` replaces the domain and redraws. `band.update` clears
  `band.range`.

The mutable parts keep the source's form:

- `data` is the class `Chart.TimelineData`.
- The sort and the scan work in place on an `array<Item>`.
- The band state is the class `BandView.Band`.

The comparators, the filters, the domain bounds and the visibility rule are
functions.

Other modelling choices:

- Times are integer milliseconds. `Option<int>` is `None` for a missing
  field or an Invalid Date, whose `getTime()` is `NaN` and fails every
  comparison.
- Pixels are exact `real`s, with `None` standing for `NaN`.
- The d3 time scale and its inverse are opaque functions of the current
  domain. An absent instant always scales to `NaN` (`Redraw.Pixel`). Only
  the redraw rule assumes that the scale is monotone.

The main results:

- Two items that share a lane lie strictly apart in time. This holds for
  both scan directions and for any input order.
- Every `track` lies in `[0, nTracks)`, and no lane is empty.
- `nTracks` is at most the number of items, and 0 when there are none.
- The sort produces a sorted permutation. When no two items share both
  start and end, that order is unique. So the example (items
  (0,10), (2,5), (6,9), (11,20) giving lanes 0, 0, 0, 1 and `nTracks` = 2)
  is proved for the real sort-and-scan method.
- Under a monotone scale, in a band of non-negative width, an item whose
  two ends both scale to numbers is hidden exactly when no pixel of its
  span lies in the band. An end that scales to `NaN` never hides an item.
- Feeding the range a brush gesture just reported back into
  `updateBrushRange` leaves the brush where the gesture put it. A range
  that `invert` reads back unchanged moves the brush at most once.

Behaviour of the code worth knowing:

- An item that passes the filter but has no `steps` array makes
  `item.steps.filter` throw a TypeError in the middle of `timeline.data`. At
  that point `data.items` has already been replaced and partly rewritten.
  `Chart.TimelineData.Load` models this as `ok = false`.
- `updateBrushRange` compares the new range with `band.range`.
  `band.range` is written only by the `"brush"` handler, which runs both
  for a user gesture and for the programmatic `brush.move`, and is cleared
  by `band.update`. After a move it holds the moved-to range as `invert`
  reads it back, which equals the requested range only when the scale
  round-trips its two ends.
- With `nTracks = 0` the per-lane height divides by zero. When the band is
  taller than its 4-pixel track offset the quotient is `Infinity`, and
  `Math.min` caps the height at `config.trackHeight`. A band no taller than
  the offset gets `NaN` or `-Infinity` instead. (That part is not
  modelled; see below.)

## Model

| member | source | states |
|---|---|---|
| `Items.FilterItems` | src/TimelineModel.js:158-164 | the kept items are all valid; an item is kept iff it is in the input and valid; never more items than given; no failure for invalid ones |
| `Items.FilterAppend` | src/TimelineModel.js:158-164 | filtering distributes over concatenation, so the result is the in-order subsequence of accepted entries |
| `Items.FilterItemsIdempotent` | src/TimelineModel.js:158-164 | filtering already-filtered items changes nothing |
| `Items.FilterSteps` | src/TimelineModel.js:241-248 | the kept steps are exactly the valid steps of the input, each valid |
| `Items.Normalized` | src/TimelineModel.js:239-277 | an item's steps become its valid steps and `instant` becomes false; start, end, label and track are unchanged |
| `Items.FirstWithoutSteps` | src/TimelineModel.js:241 | the index of the first item with no `steps` array (where the step pass throws); it is the length iff every item has steps |
| `Items.StepPass` | src/TimelineModel.js:239-277 | the items after the step pass: same length, starts and ends kept, and exactly the normalized items when every item has a `steps` array |
| `Items.NormalizeSteps` | src/TimelineModel.js:239-277 | in place, the items before the first item without steps are normalized and the rest are unchanged; `ok` iff every item has steps |
| `Compare.CompareAscending` | src/TimelineModel.js:174-185 | returns -1, 0 or 1; negative iff earlier start, or the same start and a later end (longer first); 0 iff same start and end |
| `Compare.CompareDescending` | src/TimelineModel.js:187-198 | equals minus `compareAscending`; negative iff later start, or the same start and an earlier end (shorter first); 0 iff same start and end |
| `Compare.SortedDescendingOrder` | src/TimelineModel.js:187-198 | in a list sorted with `compareDescending`, starts never increase, and among equal starts ends never decrease |
| `Compare.SortedAscendingOrder` | src/TimelineModel.js:174-185 | in a list sorted with `compareAscending`, starts never decrease, and among equal starts ends never increase |
| `Compare.SortItems` | src/TimelineModel.js:227-230 | sorts the array in place with the chosen comparator: the result is sorted and a permutation of the input |
| `Compare.SortedUnique` | src/TimelineModel.js:227-230 | with no two items sharing both start and end, any two sorted permutations of the same items are equal |
| `Tracks.FirstFit` | src/TimelineModel.js:209-211 | the least lane whose registry entry admits the item (backward `end < tracks[i]`, forward `start > tracks[i]`), or the registry length if none does |
| `Tracks.Place` | src/TimelineModel.js:213 | `tracks[track] = boundary`: that lane gets the boundary and the others keep theirs; the registry grows by one exactly when a new lane is opened |
| `Tracks.Registry` | src/TimelineModel.js:206-225 | the registry after placing the items never has more lanes than there are items, and has at least one lane when there is an item |
| `Tracks.FindLane` | src/TimelineModel.js:209-211 | the scan loop stops at the first lane that admits the item, or at the registry length if none does |
| `Tracks.AssignLanes` | src/TimelineModel.js:206-225 | in place, each item's `track` becomes its first-fit lane against the registry left by the items before it; the returned registry is the one the scan leaves; nothing else changes |
| `Tracks.CalculateTracks` | src/TimelineModel.js:200-236 | sorts with the chosen comparator (sorted permutation), then writes every track and returns the registry for that sorted order |
| `Tracks.RegistryCovers` | src/TimelineModel.js:206-225 | each placed item's lane exists, and its registry entry is at most the item's start (backward) or at least its end (forward) |
| `Tracks.RegistryCoversAt` | src/TimelineModel.js:206-225 | the same invariant for one placed item |
| `Tracks.NoOverlapInLane` | src/TimelineModel.js:206-225 | two items in the same lane lie strictly apart: backward, the later-placed one ends before the earlier one starts; forward, the reverse |
| `Tracks.LanesOccupied` | src/TimelineModel.js:209-213 | every lane below the lane count holds at least one item |
| `Tracks.LaneInRange` | src/TimelineModel.js:286 | every lane index is below `nTracks`, which is at most the number of items |
| `Tracks.LayoutSound` | src/TimelineModel.js:206-236 | on the written `track` fields: each in `[0, nTracks)`, every lane used, `nTracks` 0 iff no items and at most their number, and any two items on one track disjoint |
| `Scenarios.WorkedExample` | src/TimelineModel.js:284-286 | (11,20), (6,9), (2,5), (0,10) is the `compareDescending` order of the four items; the backward scan gives lanes 0, 0, 0, 1 and the registry [2, 0] |
| `Scenarios.WorkedExampleOrder` | src/TimelineModel.js:230 | any sorted permutation of those four items is exactly that order |
| `Scenarios.LayoutWorkedExample` | src/TimelineModel.js:284-286 | the in-place sort and scan on those items yield `nTracks` = 2 and lanes 0, 0, 0, 1 |
| `Scenarios.OverlappingPair` | src/TimelineModel.js:206-215 | (t0, t0+10) and (t0+2, t0+5) get lanes 1 and 0; two lanes |
| `Scenarios.DisjointPair` | src/TimelineModel.js:206-215 | (t0, t0+5) and (t0+10, t0+15) share lane 0; one lane |
| `Domain.MinStart` | src/TimelineModel.js:292 | undefined iff no item has a start; otherwise the result is some item's start and no start is smaller |
| `Domain.MaxEnd` | src/TimelineModel.js:293 | undefined iff no item has an end; otherwise the result is some item's end and no end is larger |
| `Domain.DomainBounds` | src/TimelineModel.js:288-291 | a given `dataRange` supplies `minDate`/`maxDate` as its entries 0 and 1 (undefined past its end) |
| `Domain.ItemBounds` | src/TimelineModel.js:292-294 | for filtered items and no `dataRange`: both bounds undefined iff there are no items; otherwise `minDate <= maxDate` and they bracket every item |
| `Redraw.ItemGeometry` | src/TimelineModel.js:493-511 | hidden iff `y < 0 || x > w` (false for NaN); hidden gives x = -1000, width 0, display none; shown gives x = scaled start and x + width = scaled end |
| `Redraw.RedrawAll` | src/TimelineModel.js:493-512 | one geometry per bound item, each given by the visibility rule |
| `Redraw.HiddenIffOffBand` | src/TimelineModel.js:493-511 | for a valid item under a monotone scale: hidden iff no pixel of its span lies in `[0, w]`; a shown item has width >= 0 and meets the band |
| `Chart.TimelineData.constructor` | src/TimelineModel.js:77 | a new timeline starts as an empty load leaves it: no items, no lines, no lanes and undefined bounds |
| `Chart.TimelineData.SetLines` | src/TimelineModel.js:146-149 | the lines are the given ones, or empty when none are given |
| `Chart.LayOut` | src/TimelineModel.js:284-294 | the production `calculateTracks(…, "descending", "backward")`: a descending-sorted permutation with tracks written, `nTracks` its lane count, and the bounds of the laid-out items |
| `Chart.TimelineData.Load` | src/TimelineModel.js:151-297 | items become a fresh array of the valid items; on success it is the descending-sorted permutation of the normalized items with tracks written, `nTracks` is the lane count and the bounds are those of `dataRange` or the items; on a missing `steps` array the partly normalized items stay and the rest is unchanged |
| `BandView.BrushDomain` | src/TimelineModel.js:725-737 | the reported range is the inverted selection, or the whole current domain when the selection is empty |
| `BandView.BrushTarget` | src/TimelineModel.js:770-785 | the brush moves iff the range is given, differs from `band.range` and both ends scale to numbers; it moves to the two scaled ends |
| `BandView.MissingEndpointStays` | src/TimelineModel.js:775-777 | a range with fewer than two entries, or with an undefined, `NaN` or Invalid Date end, never moves the brush, whatever the scale |
| `BandView.Band.constructor` | src/TimelineModel.js:323-329 | the domain is `[minDate, maxDate]`, the data's items are bound, no range and no selection |
| `BandView.Band.Update` | src/TimelineModel.js:485-491 | `band.range` becomes null, the domain is reset to the data's bounds and the items are rebound; the selection is unchanged |
| `BandView.Band.Redraw` | src/TimelineModel.js:493-523 | the geometry becomes the visibility rule applied to every bound item under the current scale, whatever it was before, so redrawing twice changes nothing |
| `BandView.Band.UpdateRange` | src/TimelineModel.js:709-717 | null leaves domain and geometry unchanged; otherwise the domain is replaced and the band redrawn |
| `BandView.Band.OnBrush` | src/TimelineModel.js:725-731 | the brush holds the gesture's selection; the reported range (inverted selection, or the whole domain) is stored as `band.range` and returned for `onBrush` |
| `BandView.Band.OnBrushEnd` | src/TimelineModel.js:732-737 | the brush holds the final selection; reports the inverted selection, or the whole domain, without touching `band.range` |
| `BandView.Band.UpdateBrushRange` | src/TimelineModel.js:770-785 | when there is a target, the selection moves to it and the `"brush"` handler records and reports the target read back through `invert`; otherwise selection, `band.range` and the report are unchanged or empty |
| `BandView.BrushThenSync` | src/TimelineModel.js:725-731 | a range the brush has just reported, passed back to `updateBrushRange`, leaves the selection where the gesture put it and `band.range` as the handler recorded it |
| `BandView.RepeatedSync` | src/TimelineModel.js:770-785 | when `invert` reads both scaled ends back unchanged, a first call that moves the brush leaves `band.range` equal to the range, and a second call with the same range does nothing |
| `BandView.UpdateThenSync` | src/TimelineModel.js:486 | after `band.update`, any range whose ends scale to numbers moves the brush to them |

## Left out

- D3 data joins (`createOrUpdateInterval`, `createOrUpdateLines`,
  src/TimelineModel.js:357-475) are not modelled. Their keyed enter/update/exit
  behaviour lives in d3-selection. `BandView.Band.Update` rebinds the items
  wholesale, and element identity across redraws is not modelled.
- Item identity is not modelled. Items are values in an array. The source
  mutates the caller's own item objects, so the caller sees the new `track`
  and `steps` fields.
- `Compare.SortItems` does not state that the sort is stable, although
  `Array.prototype.sort` is stable in current engines. Stability only decides
  which of two items with equal start and end comes first. `Compare.SortedUnique`
  covers the case without such ties.
- `Redraw.HiddenIffOffBand` requires a band width of at least 0, because with
  a negative width no pixel is ever inside the band.
- Floating-point geometry is not modelled:
  - step `startPercentage`/`endPercentage` (src/TimelineModel.js:250-258), which
    is `NaN` or infinite for zero-length items;
  - `trackHeight` (src/TimelineModel.js:331), which divides by `nTracks`,
    and the `itemHeight` and `yScale` derived from it
    (src/TimelineModel.js:332-335).
- Not modelled: the path strings of marker lines (src/TimelineModel.js:515-519),
  redrawing the axis through `band.parts`, and `axisBottom`.
- `scaleTime`, `invert` and `brushX` are library code, modelled only as
  opaque functions.
  - `brush.move` is modelled as setting the selection and running the
    `"brush"` handler. Its `"start"` event (which has no handler here) and
    the brush's own drawing are not modelled.
- BandView.Band.UpdateBrushRange: does not run the `"end"` handler that
  `brush.move` also fires. That handler changes no state and reports the
  same range, which the method returns.
- BandView.Band.UpdateBrushRange: assumes a band built with
  `timeline.brush`. The `brush` option is off by default, and
  `timeline.create` builds the brush only when it is set. Without a brush,
  a range that would move it makes `band.xBrush.call(…)` throw a TypeError.
  Before `timeline.create` has built the main band, the lookup of
  `bands['mainBand']` leaves `band` undefined, and any range that passes the
  truthiness test throws as well. Neither TypeError is modelled.
- BandView.Band.UpdateRange: assumes the main band exists. Before
  `timeline.create` has built it, a non-null domain makes
  `band.xScale.domain(…)` throw a TypeError, which is not modelled.
- BandView.BrushTarget: a `null` range end is not modelled. d3 coerces it
  to the instant 0, which scales to a number, so the brush moves. The
  model's `None` covers only undefined ends, `NaN` and Invalid Dates, which
  scale to `NaN`.
- Chart.TimelineData.constructor: the source's `data = {}` leaves `items`,
  `lines` and `nTracks` undefined rather than empty. `timeline.create`
  loads data before anything reads them.
- Diagnostic logging (`console.log`) is not modelled.
- A `start`/`end` that is not a `Date` would make `getTime` throw. The model
  has only Dates or absent values.
- An entry of `items` or of an item's `steps` that is not an object
  (`null` or `undefined`) makes reading its `start` throw a TypeError
  (src/TimelineModel.js:159 and 242). The `Item` and `Step` datatypes cannot
  represent such entries, so that error is not modelled.
- UI plumbing is not modelled:
  - the prototype patches (src/TimelineModel.js:15-25) and `destroy`
    (src/TimelineModel.js:131-139);
  - tooltips and their positioning (src/TimelineModel.js:634-677);
  - mouse handlers and the crosshair (src/TimelineModel.js:99-112, 525-545);
  - `moment` formatting.
- The composition `timeline.create` (src/TimelineModel.js:787-812) and the
  forwarding `timeline.update`/`timeline.redraw` (src/TimelineModel.js:304-308,
  759-763) are not modelled. They only call the operations above in order.
- `calculateTracks` sorts `data.items` but scans its `items` parameter. The
  only call passes `data.items`, so the model uses one array for both.
- Dead code is not modelled: `showItems` and the commented-out labels block.
