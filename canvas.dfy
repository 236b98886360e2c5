/** The bounding-box canvas: hit-testing, the hover set with its cycling
    cursor, the pointer handlers that commit selections, and the colour
    and line-width precedence used to draw each box. */
module Canvas {
  import opened Wrappers
  import opened Geometry
  import opened Seqs
  import opened Viewport
  import opened FrameSelection
  import opened SelectionRules

  /** `found` lists exactly the positions of the objects containing `p`,
      topmost (highest position, drawn last) first. */
  predicate IsHoverSet(found: seq<nat>, objects: seq<DetectedObject>, p: Point) {
    && (forall k :: 0 <= k < |found| ==> found[k] < |objects|)
    && StrictlyDecreasing(found)
    && (forall i :: 0 <= i < |objects| ==> (i in found <==> IsInsideBox(p.x, p.y, objects[i].box)))
  }

  /** Scan the objects from the last to the first, collecting every one
      that contains the point; no early exit. */
  method FindHoverSet(objects: seq<DetectedObject>, p: Point) returns (found: seq<nat>)
    ensures IsHoverSet(found, objects, p)
    ensures NoDups(found)
  {
    found := [];
    for i := |objects| downto 0
      invariant forall k :: 0 <= k < |found| ==> i <= found[k] < |objects|
      invariant StrictlyDecreasing(found)
      invariant forall j :: i <= j < |objects| ==> (j in found <==> IsInsideBox(p.x, p.y, objects[j].box))
    {
      if IsInsideBox(p.x, p.y, objects[i].box) {
        found := found + [i];
      }
    }
    StrictlyDecreasingNoDups(found);
  }

  /** The hover set of a point is determined by the objects alone. */
  lemma HoverSetUnique(a: seq<nat>, b: seq<nat>, objects: seq<DetectedObject>, p: Point)
    requires IsHoverSet(a, objects, p) && IsHoverSet(b, objects, p)
    ensures a == b
  {
    forall x: int ensures x in a <==> x in b {
      if x in a {
        var k :| 0 <= k < |a| && a[k] == x;
        assert a[k] < |objects|;
      }
      if x in b {
        var k :| 0 <= k < |b| && b[k] == x;
        assert b[k] < |objects|;
      }
    }
    StrictlyDecreasingUnique(a, b);
  }

  /** The first entry of a hover set is the topmost box under the point:
      no box drawn after it contains the point. */
  lemma HoverTopmostFirst(found: seq<nat>, objects: seq<DetectedObject>, p: Point)
    requires IsHoverSet(found, objects, p) && found != []
    ensures IsInsideBox(p.x, p.y, objects[found[0]].box)
    ensures forall i :: found[0] < i < |objects| ==> !IsInsideBox(p.x, p.y, objects[i].box)
  {
  }

  /** Two overlapping boxes: A = (100, 100)-(200, 200) listed first and
      B = (150, 150)-(300, 300) drawn over it. At (175, 175) the hover set
      is B then A. */
  lemma StackedBoxesHoverOrder(found: seq<nat>)
    requires IsHoverSet(found, StackedExample(), Point(175.0, 175.0))
    ensures found == [1, 0]
  {
    HoverSetUnique(found, [1, 0], StackedExample(), Point(175.0, 175.0));
  }

  function StackedExample(): seq<DetectedObject> {
    [DetectedObject(Box(100.0, 100.0, 200.0, 200.0), "A", 0.9),
     DetectedObject(Box(150.0, 150.0, 300.0, 300.0), "B", 0.8)]
  }

  /** The cursor into the hover set after a click: the next entry,
      wrapping round after the last. */
  function NextHoverIndex(i: nat, n: nat): (j: nat)
    requires n > 0
    ensures j < n
    ensures i < n - 1 ==> j == i + 1
    ensures i == n - 1 ==> j == 0
  {
    (i + 1) % n
  }

  /** The cursor after `k` clicks at one position, starting from 0. */
  function IndexAfterClicks(n: nat, k: nat): nat
    requires n > 0
  {
    if k == 0 then 0 else NextHoverIndex(IndexAfterClicks(n, k - 1), n)
  }

  /** Repeated clicks without moving visit the stacked boxes in turn:
      the first `n` clicks put the cursor on entries 0, 1, ..., n - 1, so
      every box under the pointer is reached, occluded ones included... */
  lemma {:induction false} ClicksVisitInOrder(n: nat, k: nat)
    requires n > 0 && k < n
    ensures IndexAfterClicks(n, k) == k
  {
    if k > 0 {
      ClicksVisitInOrder(n, k - 1);
    }
  }

  /** ... and the n-th click wraps back to the topmost entry, so the
      cursor repeats with period n. */
  lemma {:induction false} ClicksCycle(n: nat, k: nat)
    requires n > 0
    ensures IndexAfterClicks(n, k + n) == IndexAfterClicks(n, k)
  {
    if k == 0 {
      ClicksVisitInOrder(n, n - 1);
    } else {
      ClicksCycle(n, k - 1);
      assert k + n - 1 == (k - 1) + n;
    }
  }

  /** How a box is drawn: which state wins the colour, and whether the
      line is wide. */
  datatype Tone = SelectedTone | ActiveHoverTone | HoveredTone | DefaultTone

  /** Colour precedence: selected over active hover over hovered. */
  function ToneFor(isSelected: bool, isActiveHover: bool, isHovered: bool): (t: Tone)
    ensures isSelected <==> t == SelectedTone
    ensures t == ActiveHoverTone <==> !isSelected && isActiveHover
    ensures t == HoveredTone <==> !isSelected && !isActiveHover && isHovered
    ensures t == DefaultTone <==> !isSelected && !isActiveHover && !isHovered
  {
    if isSelected then SelectedTone
    else if isActiveHover then ActiveHoverTone
    else if isHovered then HoveredTone
    else DefaultTone
  }

  /** The stroke colour of each tone, as a `#rrggbb` colour string. */
  function StrokeColour(t: Tone): (c: string)
    ensures |c| == 7 && c[0] == '#'
    ensures forall k :: 1 <= k < 7 ==> c[k] in "0123456789abcdef"
  {
    match t
    case SelectedTone => "#ff0000"
    case ActiveHoverTone => "#ffff00"
    case HoveredTone => "#ffa500"
    case DefaultTone => "#00ff00"
  }

  /** The four tones are told apart on screen: no two share a colour. */
  lemma StrokeColoursDistinct(t: Tone, u: Tone)
    requires t != u
    ensures StrokeColour(t) != StrokeColour(u)
  {
  }

  /** Selected or hovered boxes get the wide line (6), the rest 4. */
  function LineWidth(isSelected: bool, isHovered: bool): (w: nat)
    ensures w == 6 || w == 4
    ensures w == 6 <==> isSelected || isHovered
  {
    if isSelected || isHovered then 6 else 4
  }

  /** A pointer event: client coordinates, button number, shift key. */
  datatype MouseEvent = MouseEvent(clientX: real, clientY: real, button: int, shiftKey: bool)

  /** The primary (left) mouse button. */
  const PrimaryButton: int := 0

  /** The canvas component's state. The objects and image size are its
      properties; the selection belongs to the caller and is passed in and
      handed back. */
  class BoundingBoxCanvas {
    const objects: seq<DetectedObject>
    const imageWidth: real
    const imageHeight: real
    const frame: FrameSelector
    var hoveredObjects: seq<nat>
    var activeHoverIndex: nat
    var transform: Transform
    var canvasWidth: real
    var canvasHeight: real
    var pointerCursor: bool

    /** The hover set lists distinct drawn objects, topmost first; the
        cursor points into it (0 when it is empty); no hover set exists
        while a drag is in progress. */
    ghost predicate Valid()
      reads this, frame
    {
      && frame.Valid()
      && imageWidth >= 0.0 && imageHeight >= 0.0 && transform.scale >= 0.0
      && (forall k :: 0 <= k < |hoveredObjects| ==> hoveredObjects[k] < |objects|)
      && StrictlyDecreasing(hoveredObjects)
      && (hoveredObjects == [] ==> activeHoverIndex == 0)
      && (hoveredObjects != [] ==> activeHoverIndex < |hoveredObjects|)
      && (frame.isSelecting ==> hoveredObjects == [])
    }

    /** A fresh canvas: nothing hovered, no drag, the initial transform
        and the HTML canvas's default 300 x 150 pixel size. */
    constructor (objects: seq<DetectedObject>, imageWidth: real, imageHeight: real)
      requires imageWidth >= 0.0 && imageHeight >= 0.0
      ensures Valid() && fresh(frame)
      ensures this.objects == objects && this.imageWidth == imageWidth && this.imageHeight == imageHeight
      ensures hoveredObjects == [] && activeHoverIndex == 0 && transform == InitialTransform
      ensures canvasWidth == 300.0 && canvasHeight == 150.0 && !pointerCursor
      ensures !frame.isSelecting && !frame.hasMovedWhileSelecting && frame.selectionRect == None
      ensures frame.startPos == Point(0.0, 0.0)
    {
      this.objects := objects;
      this.imageWidth := imageWidth;
      this.imageHeight := imageHeight;
      frame := new FrameSelector();
      hoveredObjects := [];
      activeHoverIndex := 0;
      transform := InitialTransform;
      canvasWidth := 300.0;
      canvasHeight := 150.0;
      pointerCursor := false;
    }

    /** Resize: the canvas takes the container's size and the transform is
        refitted, unless the image has a zero dimension, in which case
        nothing changes. */
    method UpdateCanvasSize(containerWidth: real, containerHeight: real)
      requires Valid() && containerWidth >= 0.0 && containerHeight >= 0.0
      modifies this
      ensures Valid()
      ensures hoveredObjects == old(hoveredObjects) && activeHoverIndex == old(activeHoverIndex)
      ensures pointerCursor == old(pointerCursor)
      ensures Fit(containerWidth, containerHeight, imageWidth, imageHeight).None? ==>
        transform == old(transform) && canvasWidth == old(canvasWidth) && canvasHeight == old(canvasHeight)
      ensures Fit(containerWidth, containerHeight, imageWidth, imageHeight).Some? ==>
        && transform == Fit(containerWidth, containerHeight, imageWidth, imageHeight).value
        && canvasWidth == containerWidth && canvasHeight == containerHeight
    {
      if imageWidth == 0.0 || imageHeight == 0.0 {
        return;
      }
      canvasWidth := containerWidth;
      canvasHeight := containerHeight;
      transform := Fit(containerWidth, containerHeight, imageWidth, imageHeight).value;
    }

    /** The pointer position in image space for this canvas. */
    function PointerPos(ev: MouseEvent, rect: ClientRect): (p: Option<Point>)
      reads this
      ensures p.Some? <==> rect.width != 0.0 && rect.height != 0.0 && transform.scale != 0.0
      ensures p.Some? ==>
        && p.value.x * transform.scale + transform.offsetX == (ev.clientX - rect.left) * (canvasWidth / rect.width)
        && p.value.y * transform.scale + transform.offsetY == (ev.clientY - rect.top) * (canvasHeight / rect.height)
    {
      ToImageSpace(ev.clientX, ev.clientY, rect, canvasWidth, canvasHeight, transform)
    }

    /** Pointer move. During a drag only the drag follows the pointer.
        Otherwise the hover set becomes the objects under the pointer and
        the cursor goes back to its first entry, on every move. A position
        JavaScript would compute as non-finite lies in no box. */
    method HandleMouseMove(ev: MouseEvent, rect: ClientRect)
      requires Valid()
      requires frame.isSelecting ==> PointerPos(ev, rect).Some?
      modifies this, frame
      ensures Valid()
      ensures old(frame.isSelecting) ==>
        && hoveredObjects == old(hoveredObjects) && activeHoverIndex == old(activeHoverIndex)
        && pointerCursor == old(pointerCursor)
        && frame.isSelecting && frame.startPos == old(frame.startPos)
        && frame.selectionRect == Some(Normalise(frame.startPos, old(PointerPos(ev, rect)).value))
        && frame.hasMovedWhileSelecting == (old(frame.hasMovedWhileSelecting)
             || Abs(old(PointerPos(ev, rect)).value.x - frame.startPos.x) > DeadZone
             || Abs(old(PointerPos(ev, rect)).value.y - frame.startPos.y) > DeadZone)
      ensures !old(frame.isSelecting) ==>
        && (old(PointerPos(ev, rect)).Some? ==> IsHoverSet(hoveredObjects, objects, old(PointerPos(ev, rect)).value))
        && (old(PointerPos(ev, rect)).None? ==> hoveredObjects == [])
        && activeHoverIndex == 0
        && pointerCursor == (hoveredObjects != [])
        && unchanged(frame)
      ensures transform == old(transform) && canvasWidth == old(canvasWidth) && canvasHeight == old(canvasHeight)
    {
      if frame.isSelecting {
        frame.UpdateSelection(PointerPos(ev, rect).value);
        return;
      }
      var found: seq<nat> := [];
      var pos := PointerPos(ev, rect);
      if pos.Some? {
        found := FindHoverSet(objects, pos.value);
      }
      hoveredObjects := found;
      activeHoverIndex := 0;
      pointerCursor := |found| > 0;
    }

    /** Pointer down: a primary-button press on empty space starts a drag;
        anything else changes nothing. */
    method HandleMouseDown(ev: MouseEvent, rect: ClientRect)
      requires Valid()
      requires ev.button == PrimaryButton && hoveredObjects == [] ==> PointerPos(ev, rect).Some?
      modifies frame
      ensures Valid()
      ensures ev.button == PrimaryButton && hoveredObjects == [] ==>
        && frame.isSelecting && !frame.hasMovedWhileSelecting
        && frame.startPos == PointerPos(ev, rect).value
        && frame.selectionRect == Some(SelectionRect(frame.startPos.x, frame.startPos.y, 0.0, 0.0))
      ensures !(ev.button == PrimaryButton && hoveredObjects == []) ==> unchanged(frame)
    {
      if ev.button == PrimaryButton {
        if |hoveredObjects| == 0 {
          frame.StartSelection(PointerPos(ev, rect).value);
        }
      }
    }

    /** Pointer up with the primary button. Ending a drag: a drag that
        stayed in the dead-zone clears the selection, one that left it
        commits the dragged objects; the drag is then cancelled. A click
        on a hover set commits its active entry and moves the cursor on.
        A click on empty space clears the selection. Returns the selection
        handed to the caller, None when the caller is not told. */
    method HandleMouseUp(ev: MouseEvent, selected: seq<nat>) returns (emitted: Option<seq<nat>>)
      requires Valid()
      modifies this, frame
      ensures Valid()
      ensures hoveredObjects == old(hoveredObjects) && pointerCursor == old(pointerCursor)
      ensures transform == old(transform) && canvasWidth == old(canvasWidth) && canvasHeight == old(canvasHeight)
      ensures ev.button != PrimaryButton ==>
        emitted == None && activeHoverIndex == old(activeHoverIndex) && unchanged(frame)
      ensures ev.button == PrimaryButton && old(frame.isSelecting) ==>
        && emitted == Some(if old(frame.hasMovedWhileSelecting)
                           then DragCommit(selected, old(frame.EndSelection(objects)), ev.shiftKey)
                           else [])
        && !frame.isSelecting && frame.selectionRect == None && !frame.hasMovedWhileSelecting
        && frame.startPos == old(frame.startPos)
        && activeHoverIndex == old(activeHoverIndex)
      ensures ev.button == PrimaryButton && !old(frame.isSelecting) && hoveredObjects != [] ==>
        && emitted == Some(ClickCommit(selected, hoveredObjects[old(activeHoverIndex)], ev.shiftKey))
        && activeHoverIndex == NextHoverIndex(old(activeHoverIndex), |hoveredObjects|)
        && unchanged(frame)
      ensures ev.button == PrimaryButton && !old(frame.isSelecting) && hoveredObjects == [] ==>
        emitted == Some([]) && activeHoverIndex == old(activeHoverIndex) && unchanged(frame)
      ensures SelectionValid(selected, |objects|) && emitted.Some? ==> SelectionValid(emitted.value, |objects|)
    {
      emitted := None;
      if ev.button == PrimaryButton {
        if frame.isSelecting {
          var newSelected := frame.EndSelection(objects);
          StrictlyIncreasingNoDups(newSelected);
          if frame.hasMovedWhileSelecting {
            emitted := Some(DragCommit(selected, newSelected, ev.shiftKey));
          } else {
            emitted := Some([]);
          }
          frame.CancelSelection();
        } else if |hoveredObjects| > 0 {
          var clicked := hoveredObjects[activeHoverIndex];
          emitted := Some(ClickCommit(selected, clicked, ev.shiftKey));
          activeHoverIndex := NextHoverIndex(activeHoverIndex, |hoveredObjects|);
        } else {
          emitted := Some([]);
        }
      }
    }

    /** Pointer leaves the canvas: any drag is cancelled; hover state and
        the selection stay as they are. */
    method HandleMouseLeave()
      requires Valid()
      modifies frame
      ensures Valid()
      ensures !frame.isSelecting && frame.selectionRect == None && !frame.hasMovedWhileSelecting
      ensures frame.startPos == old(frame.startPos)
    {
      frame.CancelSelection();
    }

    /** The drawing state of the object at position `i`. */
    function ToneOf(i: nat, selected: seq<nat>): (t: Tone)
      reads this, frame
      requires Valid()
      ensures (t == SelectedTone) <==> i in selected
      ensures t == ActiveHoverTone <==>
        i !in selected && hoveredObjects != [] && i == hoveredObjects[activeHoverIndex]
      ensures t == HoveredTone <==>
        i !in selected && i in hoveredObjects && i != hoveredObjects[activeHoverIndex]
      ensures t == DefaultTone <==> i !in selected && i !in hoveredObjects
    {
      var isHovered := i in hoveredObjects;
      var isActiveHover := isHovered && hoveredObjects[activeHoverIndex] == i;
      ToneFor(i in selected, isActiveHover, isHovered)
    }

    /** At most one box is drawn as the active hover. */
    lemma OneActiveHover(i: nat, j: nat, selected: seq<nat>)
      requires Valid()
      requires ToneOf(i, selected) == ActiveHoverTone && ToneOf(j, selected) == ActiveHoverTone
      ensures i == j
    {
    }
  }
}
