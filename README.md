# Box-selection engine of Reality2DProxies, in Dafny

This project models the interactive box-selection engine behind the
detection overlay of Reality2DProxies. The overlay draws detected objects as
rectangles (a bounding box, a category label and a score) over a photo. The
user can hover, click, shift-click and drag-select to build a selection.
The model covers five things:

- **Viewport** (`viewport.dfy`): the letterbox fit of the image into the
  canvas, and the mapping of pointer coordinates back into image space.
- **Hit-testing and hover cycling** (`geometry.dfy`, `canvas.dfy`):
  - the inclusive point-in-box test;
  - the hover set, found by a reverse scan and listed topmost first;
  - the active-hover cursor, which moves on modulo the set's size on each
    click;
  - the colour and line-width precedence used to draw a box.
- **Selection commit rules** (`selection_rules.dfy`, `seqs.dfy`):
  - a click replaces the selection, or toggles the target with shift;
  - a click on empty space clears the selection;
  - a finished drag replaces the selection, or with shift is appended
    without duplicates.
- **Rubber-band drag** (`frame_selection.dfy`): the start / update / end /
  cancel state machine of the frame-selection hook, with these pieces:
  - the 5-pixel dead-zone;
  - the sticky "has moved" flag;
  - the normalised rectangle;
  - the corner-containment membership rule.
- **Result panel** (`result_display.dfy`, `category_layers.dfy`,
  `string_order.dfy`):
  - the sorted category list;
  - the category filter and its toggle;
  - the layer shortcut, which expands layer k into the categories of
    layers 0..k;
  - the clear-filters action;
  - the result-list click.

Some conventions the model fixes:

- **Boxes are corner pairs.** The detection data stores a box as
  `[x1, y1, x2, y2]`. The code destructures those numbers as
  `[x, y, width, height]` but compares and draws them as corners.
- **Coordinates are `real`.** Where JavaScript would produce Infinity or NaN,
  the model writes the outcome out:
  - comparing with a zero container height;
  - a zero-sized client rectangle;
  - a zero scale.
- **Object identity is a position.** The code tests identity with
  `includes` and `!==`. The model uses the object's position in the list the
  canvas draws, which is the filtered object list. Within one analysis
  result this is sound, because every filter change (category toggle, layer
  select, clear filters) also clears the selection. A new analysis result
  is not covered; see "Left out".
- **The selection belongs to the caller.** `HandleMouseUp` returns the
  selection it hands to `onObjectSelect`, or `None` when it does not call it
  (a non-primary button). The result panel stores whatever comes back.

Three behaviours of the code worth noting:

- **Hover cursor reset.** The cursor goes back to 0 on every pointer move,
  not only when the hover set's membership changes
  (src/components/BoundingBoxCanvas.tsx:246).
- **Ordered selection.** The selection is an ordered list, not an unordered
  set. A shift-click appends, and a shift-drag keeps the old selection in
  front.
- **Inverted boxes.** A box with inverted corners contains no point,
  because the test compares against x1 and x2 exactly as written.

## Model

| member | source | states |
|---|---|---|
| Geometry.IsInsideBox | src/components/BoundingBoxCanvas.tsx:54-57 | the inclusive point-in-box test; a point can only be inside a box whose corners are ordered, so an inverted box contains nothing |
| Geometry.CornersInside | src/components/BoundingBoxCanvas.tsx:54-57 | both bounds of the hit test are inclusive: all four corners of a well-formed box are inside it |
| Viewport.Fit | src/components/BoundingBoxCanvas.tsx:178-205 | None exactly when an image dimension is 0 (the recompute is skipped). A relatively wider container fills the height with offsetY 0 and centres horizontally; otherwise the width is filled with offsetX 0 and the image centred vertically. The scale is positive for a positive container, offsets are non-negative and the scaled image fits inside the container |
| Viewport.ContainerIsWider | src/components/BoundingBoxCanvas.tsx:188-195 | the aspect-ratio comparison, evaluated with JavaScript's Infinity/NaN outcomes for a zero container height, agrees with the cross-multiplied comparison |
| Viewport.UnitFit | src/components/BoundingBoxCanvas.tsx:188-205 | any image with positive sides, fitted into a canvas of its own size, gets scale 1 and no offset |
| Viewport.ToImageSpace | src/components/BoundingBoxCanvas.tsx:42-51 | defined exactly when rect width, rect height and scale are nonzero; the result p satisfies p * scale + offset = (client - rect origin) * canvas/rect size on each axis |
| Viewport.ImageRoundTrip | src/components/BoundingBoxCanvas.tsx:42-51 | the pointer mapping inverts the display transform: mapping back the screen position where image point p is drawn gives p |
| Viewport.ClientRoundTrip | src/hooks/useFrameSelection.ts:17-26 | every pointer position maps to an image point that is drawn exactly at that position |
| Canvas.FindHoverSet | src/components/BoundingBoxCanvas.tsx:234-243 | the reverse scan returns exactly the positions of the objects containing the point, strictly decreasing (topmost first) and so without duplicates |
| Canvas.HoverSetUnique | src/components/BoundingBoxCanvas.tsx:237-243 | the hover set of a point is determined by the objects alone |
| Canvas.HoverTopmostFirst | src/components/BoundingBoxCanvas.tsx:237-243 | the first hover entry contains the point and no object drawn after it does |
| Canvas.StackedBoxesHoverOrder | src/components/BoundingBoxCanvas.tsx:238-243 | two overlapping boxes, the second drawn over the first: at a shared point the hover set is [1, 0] |
| Canvas.NextHoverIndex | src/components/BoundingBoxCanvas.tsx:287 | the advanced cursor stays below the hover-set size, goes up by one and wraps from the last entry to 0 |
| Canvas.ClicksVisitInOrder | src/components/BoundingBoxCanvas.tsx:272-287 | the first n clicks at one spot make entries 0, 1, ..., n-1 active in turn, so every stacked box is reachable |
| Canvas.ClicksCycle | src/components/BoundingBoxCanvas.tsx:287 | the cursor repeats with period equal to the hover-set size |
| Canvas.ToneFor | src/components/BoundingBoxCanvas.tsx:116-119 | colour precedence: selected over active hover over hovered over default, each tone chosen exactly when the higher ones do not apply |
| Canvas.StrokeColour | src/components/BoundingBoxCanvas.tsx:119 | each tone's stroke colour is a `#rrggbb` string: '#' followed by six lower-case hexadecimal digits |
| Canvas.StrokeColoursDistinct | src/components/BoundingBoxCanvas.tsx:119 | the four tones get four different stroke colours |
| Canvas.LineWidth | src/components/BoundingBoxCanvas.tsx:120 | the line width is 6 exactly when the box is selected or hovered, 4 otherwise |
| Canvas.BoundingBoxCanvas.ToneOf | src/components/BoundingBoxCanvas.tsx:113-119 | in terms of the canvas state: selected exactly for selected positions; active hover exactly for the unselected hover-set entry under the cursor; hovered exactly for the other unselected hover-set entries; default exactly for positions neither selected nor hovered |
| Canvas.BoundingBoxCanvas.OneActiveHover | src/components/BoundingBoxCanvas.tsx:116 | at most one box is drawn as the active hover |
| Canvas.BoundingBoxCanvas.constructor | src/components/BoundingBoxCanvas.tsx:26-29 | a fresh canvas has no hover set, cursor 0, the initial transform (scale 1, offset 0), the HTML canvas's default 300 x 150 size, the default pointer and an idle drag anchored at the origin |
| Canvas.BoundingBoxCanvas.PointerPos | src/components/BoundingBoxCanvas.tsx:42-51 | the pointer position under this canvas's size and transform: defined exactly when the client rectangle's size and the scale are nonzero; then p * scale + offset is the pointer's position in canvas pixels on each axis |
| Canvas.BoundingBoxCanvas.UpdateCanvasSize | src/components/BoundingBoxCanvas.tsx:175-208 | with a zero image dimension nothing changes; otherwise the canvas takes the container's size and the transform becomes the fit; hover state is untouched |
| Canvas.BoundingBoxCanvas.HandleMouseMove | src/components/BoundingBoxCanvas.tsx:228-248 | during a drag only the drag is updated (hover set, cursor and pointer style unchanged); otherwise the hover set becomes exactly the objects under the pointer, topmost first, the cursor is reset to 0 on every move, and the pointer style is on exactly when the set is non-empty |
| Canvas.BoundingBoxCanvas.HandleMouseDown | src/components/BoundingBoxCanvas.tsx:250-256 | a primary press on empty space starts a drag anchored at the pointer with an empty rectangle; any other press changes nothing |
| Canvas.BoundingBoxCanvas.HandleMouseUp | src/components/BoundingBoxCanvas.tsx:258-293 | non-primary: nothing emitted, nothing changes. Ending a drag emits [] if the pointer never left the dead-zone, else the drag commit; the drag is then cancelled, keeping its anchor. A click on a hover set emits the click commit of the active entry and advances the cursor. A click on empty space emits []. An emitted selection of a valid selection is valid |
| Canvas.BoundingBoxCanvas.HandleMouseLeave | src/components/BoundingBoxCanvas.tsx:298 | leaving the canvas cancels any drag, keeps the drag anchor and leaves hover state alone |
| SelectionRules.ClickCommit | src/components/BoundingBoxCanvas.tsx:272-287 | a plain click selects exactly the target; a shift-click flips the target's membership and keeps every other object's; a valid selection stays valid |
| SelectionRules.DragCommit | src/components/BoundingBoxCanvas.tsx:262-265 | a plain drag gives the dragged objects; a shift-drag keeps the old selection as a prefix and its members are the union; no duplicates are introduced |
| Seqs.Filter | src/components/ResultDisplay.tsx:84 | the kept elements form an order-preserving subsequence, all satisfy the predicate, and each is kept with its full multiplicity |
| Seqs.Remove | src/components/BoundingBoxCanvas.tsx:279 | removing x leaves a subsequence without x in which every other element keeps its multiplicity |
| Seqs.Toggle | src/components/ResultDisplay.tsx:100-106 | the element's membership flips, every other element's is kept, an absent element is appended at the end, and duplicate-freedom is preserved |
| Seqs.AppendNew | src/components/BoundingBoxCanvas.tsx:264 | the old list is kept as a prefix, the members are the union, and no duplicates appear when the inputs have none |
| FrameSelection.Normalise | src/hooks/useFrameSelection.ts:53-58 | the rectangle has non-negative size, contains both the anchor and the pointer, and each edge lies at one of the two coordinates |
| FrameSelection.DragSelect | src/hooks/useFrameSelection.ts:68-84 | the selected positions are strictly increasing (list order) and a position is selected exactly when one of its box's four corners lies in the rectangle or the rectangle lies wholly inside the box |
| FrameSelection.DragHits | src/hooks/useFrameSelection.ts:70-83 | the filter predicate (four corners, or the rectangle wholly inside the box); it never selects a well-formed box that a normalised rectangle does not overlap |
| FrameSelection.EnclosedBoxHit | src/hooks/useFrameSelection.ts:70-79 | a box lying wholly inside the rectangle is selected |
| FrameSelection.TopLeftCornerExample | src/hooks/useFrameSelection.ts:72-73 | a box whose top-left corner is inside the rectangle is selected although its far corner is outside |
| FrameSelection.CrossingBandMissed | src/hooks/useFrameSelection.ts:70-82 | a box crossing the rectangle as a band overlaps it but is not selected: the rule is not overlap |
| FrameSelection.FrameSelector.constructor | src/hooks/useFrameSelection.ts:12-15 | the hook starts idle: no rectangle, anchor (0, 0), not moved |
| FrameSelection.FrameSelector.StartSelection | src/hooks/useFrameSelection.ts:28-39 | starting anchors at the position, sets selecting, clears the moved flag and makes a zero-size rectangle at the anchor |
| FrameSelection.FrameSelector.UpdateSelection | src/hooks/useFrameSelection.ts:41-59 | idle: no change. Selecting: the rectangle becomes the normalised anchor-pointer rectangle, and the moved flag becomes its old value or'ed with leaving the 5-pixel dead-zone, so it is never cleared |
| FrameSelection.FrameSelector.EndSelection | src/hooks/useFrameSelection.ts:61-88 | [] when the pointer never left the dead-zone or there is no rectangle; otherwise exactly the objects the membership rule accepts, in list order |
| FrameSelection.FrameSelector.CancelSelection | src/hooks/useFrameSelection.ts:90-94 | back to idle: not selecting, no rectangle, not moved; the anchor is kept |
| CategoryLayers.LayersUpTo | src/utils/categoryLayers.ts:27-32 | the reference definition of the loop (layers 0..k concatenated in order, missing layers contributing nothing); empty for a negative k, and every category in it comes from a present layer 0..k |
| CategoryLayers.GetCategoriesForLayer | src/utils/categoryLayers.ts:21-34 | no layer gives []; layer k gives the concatenation of the present layers 0..k in order, and a negative k gives [] |
| CategoryLayers.LayersPrefix | src/utils/categoryLayers.ts:27-32 | the categories of layer j are a prefix of those of any deeper layer k |
| CategoryLayers.LayersMembership | src/utils/categoryLayers.ts:27-32 | a category is shown for layer k exactly when some present layer 0..k lists it |
| CategoryLayers.MissingLayerSkipped | src/utils/categoryLayers.ts:29-31 | a layer missing from the map contributes nothing |
| ResultDisplay.Categories | src/components/ResultDisplay.tsx:44 | the category list is strictly sorted, has no duplicates and holds exactly the categories that occur among the objects |
| ResultDisplay.CategoriesUnique | src/components/ResultDisplay.tsx:44 | every sorted, duplicate-free listing of the occurring categories is that list |
| ResultDisplay.FilteredObjects | src/components/ResultDisplay.tsx:82-85 | no selected category: all objects; otherwise exactly the objects whose category is selected, in their original order and with their multiplicities |
| ResultDisplay.ResultView.constructor | src/components/ResultDisplay.tsx:20-25 | the panel starts with no selection, no category filter and no layer |
| ResultDisplay.ResultView.HandleLayerSelect | src/components/ResultDisplay.tsx:70-79 | the layer is recorded; no layer clears the filter, a layer sets it to that layer's expansion; the selection is cleared |
| ResultDisplay.ResultView.HandleCategoryToggle | src/components/ResultDisplay.tsx:100-108 | the filter becomes its toggle by the category, the selection is cleared and the layer is kept |
| ResultDisplay.ResultView.HandleClearFilters | src/components/ResultDisplay.tsx:110-114 | the filter, the layer and the selection are all cleared |
| ResultDisplay.ResultView.HandleListItemClick | src/components/ResultDisplay.tsx:277-287 | a click on a list entry applies the canvas click rule to it; the filter and layer are kept and the selection stays valid |
| ResultDisplay.ResultView.HandleCanvasMouseUp | src/components/ResultDisplay.tsx:211-219 | the canvas, drawing the filtered objects, decides the new selection. A non-primary release keeps it. Ending a drag clears it inside the dead-zone and otherwise makes it the drag commit. A click on a hover set makes it the click commit of the active entry. A click on empty space clears it. The filter and layer are kept and the selection stays valid. The canvas is left as its own pointer-up handler leaves it: hover set, pointer, size and transform kept; a drag end cancels the drag and keeps the anchor; a click on a hover set advances the cursor; otherwise the cursor and the drag are unchanged |

## Left out

- Network and foreign calls are not modelled: the detection API and its polling, the chat-vision call and its environment variables, and the SVG export with its number formatting and download.
- `parseCategoryLayers` is not modelled, because it rests on a regular-expression match and `JSON.parse`. The layer map is an input, `map<int, seq<string>>`, whose keys are layer numbers and whose values are category lists.
- The categories memo also rewrites the chat prompt (src/components/ResultDisplay.tsx:45-60). That side effect concerns the chat call only and is not modelled.
- Drawing is not modelled: the canvas 2D calls, grid, labels, fill colours and image loading. Only the stroke colour and line width of a box are modelled, as `ToneFor`, `StrokeColour` and `LineWidth`.
- React specifics are not modelled: effect dependency lists, listener registration and re-render timing. Each handler is one synchronous method on the state it reads. DOM geometry (the bounding client rectangle, the container size) is passed in as parameters.
- Floating-point rounding is not modelled: coordinates are exact reals.
- Canvas.BoundingBoxCanvas.HandleMouseMove: requires the pointer mapping to be defined while a drag is in progress. JavaScript would go on with NaN or Infinity coordinates there (zero rect size or zero scale); the hover path outside a drag does handle that case (the hover set becomes empty).
- Canvas.BoundingBoxCanvas.HandleMouseDown: requires the mapping to be defined when a drag would start, for the same reason.
- Canvas.BoundingBoxCanvas: the drawn object list is fixed for the lifetime of a canvas state. Stale hover entries that survive a change of the object list until the next pointer move are not modelled.
- ResultDisplay.ResultView: the object list is fixed for the lifetime of a state (`objects` is a constant), and so is the canvas's image size (`imageWidth`, `imageHeight` in canvas.dfy). In the source the panel stays mounted across analyses: src/App.tsx:55-60 renders it while results exist, and src/hooks/useAnalysis.ts:36-40 replaces the results. The image size is set once the image loads (src/components/ResultDisplay.tsx:87-98). None of the panel's state is reset when that happens (src/components/ResultDisplay.tsx:20, 23, 25). So after a new analysis the source keeps the category filter and the layer, recomputes the filtered list from the new objects, and keeps the old selection, which then names no drawn object. The model does not capture this: a new result set is a fresh state with no filter, and positions cannot represent a reference to an object that is no longer in the list.
- ResultDisplay.Categories: sorts by Unicode code point, while JavaScript's default sort compares UTF-16 code units. The two orders differ only for characters outside the Basic Multilingual Plane.
- The mouse position helper of the frame-selection hook (src/hooks/useFrameSelection.ts:17-26) computes the same formula as the canvas's. Both are modelled by the one function `Viewport.ToImageSpace`.
- Fields of a detected object that the engine never reads (mask, pose and hand keypoints) are not modelled. The score is carried but not used.
