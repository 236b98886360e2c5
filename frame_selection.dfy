/** The rubber-band (drag) selection of the canvas: the drag rectangle,
    its dead-zone, the corner-containment membership rule and the
    start / update / end / cancel state machine of the selection hook. */
module FrameSelection {
  import opened Wrappers
  import opened Geometry
  import opened Seqs

  /** The drag rectangle in image space, kept normalised by its updates. */
  datatype SelectionRect = SelectionRect(startX: real, startY: real, width: real, height: real)

  /** A pointer that stays within this many image pixels of the anchor
      on both axes has not dragged. */
  const DeadZone: real := 5.0

  function Abs(x: real): real {
    if x < 0.0 then -x else x
  }

  function Min(a: real, b: real): real {
    if a <= b then a else b
  }

  /** Inclusive containment of a point in the drag rectangle. */
  predicate InRect(px: real, py: real, r: SelectionRect) {
    px >= r.startX && px <= r.startX + r.width && py >= r.startY && py <= r.startY + r.height
  }

  /** The rectangle spanned by the anchor and the pointer: its left edge is
      the smaller of the two x coordinates and its right edge the larger,
      likewise for y, so both points lie in it and nothing is wasted. */
  function Normalise(anchor: Point, p: Point): (r: SelectionRect)
    ensures r.width >= 0.0 && r.height >= 0.0
    ensures InRect(anchor.x, anchor.y, r) && InRect(p.x, p.y, r)
    ensures r.startX == anchor.x || r.startX == p.x
    ensures r.startX + r.width == anchor.x || r.startX + r.width == p.x
    ensures r.startY == anchor.y || r.startY == p.y
    ensures r.startY + r.height == anchor.y || r.startY + r.height == p.y
  {
    SelectionRect(Min(anchor.x, p.x), Min(anchor.y, p.y), Abs(p.x - anchor.x), Abs(p.y - anchor.y))
  }

  /** The drag membership rule: one of the box's four corners lies in the
      rectangle, or the rectangle lies wholly inside the box. It never
      selects a well-formed box that the rectangle misses. */
  predicate DragHits(b: Box, r: SelectionRect): (hit: bool)
    ensures hit && WellFormed(b) && r.width >= 0.0 && r.height >= 0.0 ==> Overlaps(b, r)
  {
    || InRect(b.x1, b.y1, r)
    || InRect(b.x2, b.y1, r)
    || InRect(b.x1, b.y2, r)
    || InRect(b.x2, b.y2, r)
    || (r.startX >= b.x1 && r.startX + r.width <= b.x2 && r.startY >= b.y1 && r.startY + r.height <= b.y2)
  }

  /** The positions of the objects the drag rectangle selects, in list
      order (the source's `objects.filter(...)`). */
  function DragSelect(objects: seq<DetectedObject>, r: SelectionRect): (sel: seq<nat>)
    ensures StrictlyIncreasing(sel)
    ensures forall k :: 0 <= k < |sel| ==> sel[k] < |objects|
    ensures forall i :: 0 <= i < |objects| ==> (i in sel <==> DragHits(objects[i].box, r))
    decreases |objects|
  {
    if objects == [] then []
    else
      var n := |objects| - 1;
      var front := DragSelect(objects[..n], r);
      assert forall i :: 0 <= i < n ==> objects[..n][i] == objects[i];
      if DragHits(objects[n].box, r) then front + [n] else front
  }

  /** Ordinary rectangle overlap (closed intervals on both axes). */
  predicate Overlaps(b: Box, r: SelectionRect) {
    b.x1 <= r.startX + r.width && r.startX <= b.x2 && b.y1 <= r.startY + r.height && r.startY <= b.y2
  }

  /** A box lying wholly inside the rectangle is selected. */
  lemma EnclosedBoxHit(b: Box, r: SelectionRect)
    requires InRect(b.x1, b.y1, r) && InRect(b.x2, b.y2, r)
    ensures DragHits(b, r)
  {
  }

  /** A box whose top-left corner is inside the rectangle is selected even
      though it reaches beyond it: rectangle (0, 0, 120 x 120), box
      (100, 100)-(200, 200). */
  lemma TopLeftCornerExample()
    ensures DragHits(Box(100.0, 100.0, 200.0, 200.0), SelectionRect(0.0, 0.0, 120.0, 120.0))
    ensures !InRect(200.0, 200.0, SelectionRect(0.0, 0.0, 120.0, 120.0))
  {
  }

  /** The corner rule is an approximation of overlap: a box that crosses
      the rectangle as a band, with no corner inside it, is not selected. */
  lemma CrossingBandMissed()
    ensures Overlaps(Box(-10.0, 40.0, 130.0, 60.0), SelectionRect(0.0, 0.0, 100.0, 100.0))
    ensures !DragHits(Box(-10.0, 40.0, 130.0, 60.0), SelectionRect(0.0, 0.0, 100.0, 100.0))
  {
  }

  /** The state of the frame-selection hook. */
  class FrameSelector {
    var isSelecting: bool
    var selectionRect: Option<SelectionRect>
    var startPos: Point
    var hasMovedWhileSelecting: bool

    /** Idle means no rectangle and no movement; a drag in progress always
        has a normalised rectangle that contains its anchor. */
    ghost predicate Valid()
      reads this
    {
      && (!isSelecting ==> selectionRect.None? && !hasMovedWhileSelecting)
      && (isSelecting ==>
            && selectionRect.Some?
            && selectionRect.value.width >= 0.0 && selectionRect.value.height >= 0.0
            && InRect(startPos.x, startPos.y, selectionRect.value))
    }

    constructor ()
      ensures Valid()
      ensures !isSelecting && selectionRect == None && startPos == Point(0.0, 0.0) && !hasMovedWhileSelecting
    {
      isSelecting := false;
      selectionRect := None;
      startPos := Point(0.0, 0.0);
      hasMovedWhileSelecting := false;
    }

    /** Begin a drag at `pos`: anchor there, empty rectangle, not moved. */
    method StartSelection(pos: Point)
      modifies this
      ensures Valid()
      ensures startPos == pos && isSelecting && !hasMovedWhileSelecting
      ensures selectionRect == Some(SelectionRect(pos.x, pos.y, 0.0, 0.0))
    {
      startPos := pos;
      isSelecting := true;
      hasMovedWhileSelecting := false;
      selectionRect := Some(SelectionRect(pos.x, pos.y, 0.0, 0.0));
    }

    /** Follow the pointer during a drag; nothing happens when idle. Once
        the pointer has left the dead-zone the drag counts as moved, and
        later updates never clear that. */
    method UpdateSelection(pos: Point)
      requires Valid()
      modifies this
      ensures Valid()
      ensures !old(isSelecting) ==>
        && isSelecting == old(isSelecting) && selectionRect == old(selectionRect)
        && startPos == old(startPos) && hasMovedWhileSelecting == old(hasMovedWhileSelecting)
      ensures old(isSelecting) ==>
        && isSelecting && startPos == old(startPos)
        && selectionRect == Some(Normalise(startPos, pos))
        && hasMovedWhileSelecting == (old(hasMovedWhileSelecting)
             || Abs(pos.x - startPos.x) > DeadZone || Abs(pos.y - startPos.y) > DeadZone)
    {
      if !isSelecting {
        return;
      }
      var dx := Abs(pos.x - startPos.x);
      var dy := Abs(pos.y - startPos.y);
      if dx > DeadZone || dy > DeadZone {
        hasMovedWhileSelecting := true;
      }
      selectionRect := Some(Normalise(startPos, pos));
    }

    /** The objects a finished drag selects: none unless the pointer left
        the dead-zone and there is a rectangle, otherwise those the
        membership rule accepts, in list order. */
    function EndSelection(objects: seq<DetectedObject>): (sel: seq<nat>)
      reads this
      ensures !hasMovedWhileSelecting || selectionRect.None? ==> sel == []
      ensures hasMovedWhileSelecting && selectionRect.Some? ==>
        forall i :: 0 <= i < |objects| ==> (i in sel <==> DragHits(objects[i].box, selectionRect.value))
      ensures StrictlyIncreasing(sel) && forall k :: 0 <= k < |sel| ==> sel[k] < |objects|
    {
      if !hasMovedWhileSelecting then []
      else match selectionRect
        case Some(r) => DragSelect(objects, r)
        case None => []
    }

    /** Back to idle; the selection itself is not touched. */
    method CancelSelection()
      modifies this
      ensures Valid()
      ensures !isSelecting && selectionRect == None && !hasMovedWhileSelecting
      ensures startPos == old(startPos)
    {
      isSelecting := false;
      selectionRect := None;
      hasMovedWhileSelecting := false;
    }
  }
}
