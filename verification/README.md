# Process-analytics overlay: a Dafny model

This project models the two overlay commands of a business-process diagram
viewer. It also models the view that draws a quantitative label.

- **MiningCommand** (`MiningAction`). For each entry of the fetched mining
  data, it attaches a `MiningLabel` to the edge the entry names. When the
  edge's own label lies at a distance `d < 30` from the last segment's
  midpoint, it pushes the label by `30 - d` in the positive direction of one
  axis. It then adds a start caption and an end caption, both anchored to a
  rectangle folded from the bounds of the root's children. `execute` does
  nothing once a caption exists. `undo` removes the root children that are
  mining labels or captions. `redo` runs `execute` again.
- **MiningLabelView** (`MiningLabelView`). It maps a relative value to a circle
  radius, fill colour and text colour. It places the circle 20 units back from
  the tip of the edge's last segment.
- **CaseVisualizationCommand** (`CaseVisualization`). It recolours the edges,
  activities, events and gateways that a case passed through, and the element
  it is active at. `undo` returns the root untouched.

## Modules

- `Optional` holds `Option`, where `None` stands for JavaScript's `undefined`.
- `Geometry` holds points, bounds and squared distance. `Math.sqrt` is passed
  in as a function argument. `IsSqrt` states what a square root must satisfy.
- `Diagram` holds the diagram as a flat sequence of root children inside the
  class `ModelRoot`.
  - `GetById` is the index lookup: it returns the first child with that id.
  - `RemoveAll` removes the root's direct children of one type.
  - `ItemBounds` collects the bounds of the bounds-aware children.
  - Mining labels attached to an edge are kept in that edge's `miningLabels`
    field. They are not root children.
- `MiningLabelView` holds the pure view arithmetic.
- `MiningAction` and `CaseVisualization` hold the commands. Each command's
  loop is the module-level method `Populate`, which takes the `ModelRoot` as
  a parameter and reassigns its `children`. It is proved equal to a function
  that folds over the data entries, and the lemmas are stated about that
  function.
- `instanceof Edge` (and the other type tests) is a comparison of an
  element's `Kind`. `model.add` appends to the root's `children`, and
  `edge.add` appends to the edge's `miningLabels`.

## Behaviour of the code worth noting

- `getCircleProps` (src/process-mining-visualisation/MiningLabelView.tsx:57-96)
  tests its thresholds with `<=`, so bucket k is `(k/10, (k+1)/10]`. It gives
  radius `10 + k`, fill `colors[k]`, and text `'black'` up to 0.3 and
  `'#ffffff'` above. It does not clamp: a value above 1 keeps radius 10, fill
  `'white'` and text `'black'`.
- `moveExistingLabel` (src/process-mining-visualisation/mining-action.ts:160-166)
  compares the signed offsets `p2.x - p1.x > p2.y - p1.y`. It always pushes in
  the positive direction, so the label can end up closer to the midpoint
  (`MiningAction.MoveMayApproachMidpoint`).
- `undo` (src/process-mining-visualisation/mining-action.ts:125-126) removes
  only the root's direct children, but `populate` attaches each MiningLabel to
  its edge (:105). So `undo` leaves the labels on the edges and the moved edge
  labels where they are, and `execute`, `undo`, `redo` leaves an edge named
  once with two MiningLabels (`MiningAction.RedoAfterUndoAddsLabel`).
- The case data carries a single `activeElementId`
  (src/case-visualisation/case-visualization-action.ts:23, 87).

## Model

| member | source | states |
|---|---|---|
| MiningAction.Execute | src/process-mining-visualisation/mining-action.ts:85-92 | if a root child is a caption the children are unchanged; otherwise they become `Populated` of the old children |
| MiningAction.Redo | src/process-mining-visualisation/mining-action.ts:129-131 | the same two outcomes as `execute` |
| MiningAction.ExecuteTwice | src/process-mining-visualisation/mining-action.ts:85-92 | a second `execute` after the first adds nothing: the result is one `Populated` step, or unchanged |
| MiningAction.Populate | src/process-mining-visualisation/mining-action.ts:94-121 | the loop over the entries, then the two captions, leave exactly `Populated(old children)` |
| MiningAction.Populated | src/process-mining-visualisation/mining-action.ts:99-119 | exactly two more root children: a start caption titled with the process name, then an end caption with the instance count and period; both are anchored to the anchor rectangle of the original children; the old children keep id, type, bounds and order; a caption is then present, so the next `execute` is a no-op |
| MiningAction.DecorateEdge | src/process-mining-visualisation/mining-action.ts:100-106 | an entry whose id does not resolve to an edge changes nothing; one that does appends exactly one MiningLabel with the entry's values and the routed points to that edge, moves that edge's label with `moveExistingLabel`, and leaves every other child and the edge's args as they were |
| MiningAction.Decorated | src/process-mining-visualisation/mining-action.ts:99-107 | the loop keeps every root child's id, type, bounds and caption |
| MiningAction.Undo | src/process-mining-visualisation/mining-action.ts:123-128 | the children become `Undone` of the old children |
| MiningAction.Undone | src/process-mining-visualisation/mining-action.ts:125-126 | an element survives exactly when it was a root child that is neither a mining label nor a caption |
| MiningAction.UndoneAppend | src/process-mining-visualisation/mining-action.ts:125-126 | removal distributes over concatenation, so the kept children stay in their original order |
| MiningAction.UndoneUndecorated | src/process-mining-visualisation/mining-action.ts:125-126 | on children with no label or caption at the root, undo changes nothing |
| MiningAction.UndoneCaptions | src/process-mining-visualisation/mining-action.ts:110-119 | undo removes both captions that `populate` adds |
| MiningAction.UndoAfterPopulate | src/process-mining-visualisation/mining-action.ts:94-128 | `undo` after `populate` on an undecorated diagram gives the decorated children: the same root children, but the labels attached to edges and the moved edge labels remain |
| MiningAction.RedoAfterUndoAddsLabel | src/process-mining-visualisation/mining-action.ts:99-131 | with one entry naming an edge, `execute`, `undo` then `redo` finds no caption, so it populates again, and the edge ends with two more MiningLabels than it started with |
| MiningAction.GetModelBounds | src/process-mining-visualisation/mining-action.ts:134-144 | the loop returns the fold `AnchorRect` of the items, which is the anchor rectangle (`IsAnchorRect`) |
| MiningAction.AnchorRectIsExact | src/process-mining-visualisation/mining-action.ts:136-142 | x and y are at most 0 and at most every item's x and y; width and height are at least 0 and at least every item's x and bottom edge; each is 0 or attained by an item |
| MiningAction.AnchorRectUnique | src/process-mining-visualisation/mining-action.ts:136-142 | the enclosing-and-attained description fixes the rectangle |
| MiningAction.AnchorRectOfNothing | src/process-mining-visualisation/mining-action.ts:135-136 | with no bounds-aware children the result is all zeros |
| MiningAction.MoveExistingLabel | src/process-mining-visualisation/mining-action.ts:147-169 | the label is unchanged when it is absent, its text is empty or the route has fewer than two points, and also when its distance to the last segment's midpoint is at least 30; otherwise y grows by `30 - d > 0` if the signed x offset exceeds the signed y offset, else x does |
| MiningAction.MoveChangesOneCoordinate | src/process-mining-visualisation/mining-action.ts:159-167 | a move keeps the label's presence and text, and changes one coordinate of the position, which only grows |
| MiningAction.MoveMayApproachMidpoint | src/process-mining-visualisation/mining-action.ts:159-167 | a label 20 above the midpoint of a horizontal segment is moved to 10 above it, closer than before |
| MiningAction.SqrtOf400 | src/process-mining-visualisation/mining-action.ts:158 | any square root gives 20 for 400, the premise of MoveMayApproachMidpoint |
| MiningLabelView.GetCircleProps | src/process-mining-visualisation/MiningLabelView.tsx:55-98 | radius in [10, 19]; text `'#ffffff'` exactly when 0.3 < value <= 1 and `'black'` otherwise; a value above 1 keeps the defaults; with at least ten colours the fill is defined |
| MiningLabelView.BucketMapping | src/process-mining-visualisation/MiningLabelView.tsx:57-96 | a value in bucket k gets radius 10 + k and fill `colors[k]`; values at or below 0.1, negative ones included, form bucket 0 |
| MiningLabelView.BucketExists | src/process-mining-visualisation/MiningLabelView.tsx:58-96 | every value up to 1 lies in some bucket 0..9 |
| MiningLabelView.RadiusMonotone | src/process-mining-visualisation/MiningLabelView.tsx:57-96 | over values up to 1 the radius never decreases as the value grows |
| MiningLabelView.Render | src/process-mining-visualisation/MiningLabelView.tsx:17-43 | nothing for fewer than two points; otherwise the circle props of the relative value, centred by the last two points |
| MiningLabelView.RenderUsesLastTwo | src/process-mining-visualisation/MiningLabelView.tsx:23-25 | two labels with the same value and the same last two points render alike |
| MiningLabelView.MarkerPlacement | src/process-mining-visualisation/MiningLabelView.tsx:24-43 | when the last two points differ, the centre is exactly 20 from the tip, on the segment's line, on the side of the previous point |
| MiningLabelView.CenterPlacement | src/process-mining-visualisation/MiningLabelView.tsx:28-43 | the same placement, for the two points themselves |
| MiningLabelView.CoincidentPoints | src/process-mining-visualisation/MiningLabelView.tsx:32-37 | when the last two points coincide, the division by a zero length leaves the centre non-finite |
| CaseVisualization.Populate | src/case-visualisation/case-visualization-action.ts:73-94 | the loop leaves exactly `Recolored(old children)` |
| CaseVisualization.Execute | src/case-visualisation/case-visualization-action.ts:68-71 | runs `populate` |
| CaseVisualization.Redo | src/case-visualisation/case-visualization-action.ts:100-102 | the same as `execute` |
| CaseVisualization.ExecuteThenRedo | src/case-visualisation/case-visualization-action.ts:68-71 | `execute` then `redo` leaves the colours of one `execute` |
| CaseVisualization.Undo | src/case-visualisation/case-visualization-action.ts:96-98 | returns the same root with the same children, so no colour is reverted |
| CaseVisualization.RecolorEntry | src/case-visualisation/case-visualization-action.ts:79-90 | one entry changes only the args of elements and keeps every id, type, bounds and caption |
| CaseVisualization.Recolored | src/case-visualisation/case-visualization-action.ts:78-91 | the whole loop changes only args |
| CaseVisualization.RecoloredArgs | src/case-visualisation/case-visualization-action.ts:76-91 | each element's final args are given without reference to the loop. An element the lookup does not reach, or of another type, keeps its args. A resolved element that is listed and has the active id gets `{color: activeColor}`, whatever its passed flag. Otherwise it gets `{color: passedColor}` if some entry for it is passed. Otherwise it keeps its args |
| CaseVisualization.RecolorIdempotent | src/case-visualisation/case-visualization-action.ts:78-91 | running the loop twice with the same data equals running it once |
| CaseVisualization.ActiveNeedsListing | src/case-visualisation/case-visualization-action.ts:86-89 | when no entry carries `activeElementId`, the element with that id keeps its args |
| CaseVisualization.UnlistedUnchanged | src/case-visualisation/case-visualization-action.ts:78-91 | elements that no entry names are unchanged |
| Diagram.GetById | src/process-mining-visualisation/mining-action.ts:100 | the index found holds the id and is the first such index; no index means no child has the id |
| Diagram.RemoveAll | src/process-mining-visualisation/mining-action.ts:125-126 | keeps exactly the children of other types |
| Diagram.ItemBounds | src/process-mining-visualisation/mining-action.ts:135 | exactly the bounds of the bounds-aware children |

## Left out

- The network fetch and JSON decoding. The fetched record is a method argument.
- The asynchronous split between `execute` and `populate`. `populate` runs as
  one synchronous step once the data is available.
- Host library code:
  - `edgeRouterRegistry.route` is an argument function from an edge to its
    routed points;
  - `index.getById`, `instanceof`, `edge.add`, `model.add` and `removeAll`
    have the explicit meanings given under Modules.
- `DiagramCaption.ts` is not part of this model. A caption is a root child
  with the caption type, an empty id and no bounds.
- Caption and label text formatting (`toDateString`, template strings,
  `toString`). The caption text is an opaque datatype, and a MiningLabel
  stores its numeric value.
- The shared colour state (`colorSegment.colors`, the injected `TEST`
  colours). The colour list is passed to the view explicitly.
- The VNode/SVG output and console logging of the view.
- IEEE-754 arithmetic. Numbers are reals and `Math.sqrt` is any function
  meeting `IsSqrt`. The NaN from a zero-length segment is the `NonFinite`
  centre.
- The aliasing of one args object between recoloured elements. Args are
  values.
- MiningAction.MoveMayApproachMidpoint: requires only that the square root
  gives 20 for 400, rather than the full `IsSqrt`. `SqrtOf400` proves that any
  square root meets this requirement.
