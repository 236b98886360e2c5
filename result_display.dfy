/** The result panel around the canvas: the category list, the category
    filter, the layer shortcut, and the selection it owns (set by the
    canvas and by clicks on the result list). */
module ResultDisplay {
  import opened Wrappers
  import opened Geometry
  import opened Seqs
  import opened StringOrder
  import opened SelectionRules
  import opened CategoryLayers
  import Canvas

  /** The categories that occur among the objects. */
  function CategorySet(objects: seq<DetectedObject>): set<string> {
    set o | o in objects :: o.category
  }

  /** The distinct categories of the objects in sorted order (the source
      collects them in a Set and sorts the result). */
  function Categories(objects: seq<DetectedObject>): (cats: seq<string>)
    ensures StrictlySorted(cats)
    ensures forall c :: c in cats <==> c in CategorySet(objects)
    ensures NoDups(cats)
    decreases |objects|
  {
    if objects == [] then []
    else
      var rest := Categories(objects[1..]);
      assert objects == [objects[0]] + objects[1..];
      assert CategorySet(objects) == {objects[0].category} + CategorySet(objects[1..]);
      var cats := InsertSorted(rest, objects[0].category);
      SortedNoDups(cats);
      cats
  }

  /** The sorted category list is the only sorted, duplicate-free listing
      of the categories present. */
  lemma CategoriesUnique(objects: seq<DetectedObject>, listing: seq<string>)
    requires StrictlySorted(listing)
    requires forall c :: c in listing <==> c in CategorySet(objects)
    ensures listing == Categories(objects)
  {
    SortedUnique(listing, Categories(objects));
  }

  /** The objects shown: all of them when no category is selected,
      otherwise those whose category is selected, in their original order
      and with their multiplicities. */
  function FilteredObjects(objects: seq<DetectedObject>, selectedCategories: seq<string>): (r: seq<DetectedObject>)
    ensures selectedCategories == [] ==> r == objects
    ensures Subseq(r, objects)
    ensures selectedCategories != [] ==> forall o :: o in r ==> o.category in selectedCategories
    ensures selectedCategories != [] ==>
              forall o :: multiset(r)[o] == if o.category in selectedCategories then multiset(objects)[o] else 0
  {
    if |selectedCategories| == 0 then
      SubseqRefl(objects);
      objects
    else Filter(objects, (o: DetectedObject) => o.category in selectedCategories)
  }

  lemma {:induction false} SubseqRefl<T>(s: seq<T>)
    ensures Subseq(s, s)
    decreases |s|
  {
    if s != [] {
      SubseqRefl(s[1..]);
    }
  }

  /** The result panel's state: the detected objects (a property), the
      selected categories and layer, and the object selection, which holds
      positions in the filtered list. Every change of the filter clears
      the selection, so those positions keep naming the same objects for
      as long as the object list stays the same. */
  class ResultView {
    const objects: seq<DetectedObject>
    var selectedObjects: seq<nat>
    var selectedCategories: seq<string>
    var selectedLayer: Option<int>

    function Filtered(): seq<DetectedObject>
      reads this
    {
      FilteredObjects(objects, selectedCategories)
    }

    /** The selection names shown objects, each once. */
    ghost predicate Valid()
      reads this
    {
      SelectionValid(selectedObjects, |Filtered()|)
    }

    constructor (objects: seq<DetectedObject>)
      ensures Valid()
      ensures this.objects == objects
      ensures selectedObjects == [] && selectedCategories == [] && selectedLayer == None
    {
      this.objects := objects;
      selectedObjects := [];
      selectedCategories := [];
      selectedLayer := None;
    }

    /** Choose a layer: its categories, and those of every layer above it,
        become the filter; no layer clears the filter. Clears the selection. */
    method HandleLayerSelect(layer: Option<int>, layers: LayerMap)
      modifies this
      ensures Valid()
      ensures selectedLayer == layer
      ensures layer.None? ==> selectedCategories == []
      ensures layer.Some? ==> selectedCategories == LayersUpTo(layers, layer.value)
      ensures selectedObjects == []
    {
      selectedLayer := layer;
      if layer.None? {
        selectedCategories := [];
      } else {
        var layerCategories := GetCategoriesForLayer(layers, layer);
        selectedCategories := layerCategories;
      }
      selectedObjects := [];
    }

    /** Toggle one category chip in or out of the filter; clears the
        selection and leaves the layer as it was. */
    method HandleCategoryToggle(category: string)
      modifies this
      ensures Valid()
      ensures selectedCategories == Toggle(old(selectedCategories), category)
      ensures selectedObjects == [] && selectedLayer == old(selectedLayer)
    {
      selectedCategories := Toggle(selectedCategories, category);
      selectedObjects := [];
    }

    /** Drop every filter, the layer and the selection. */
    method HandleClearFilters()
      modifies this
      ensures Valid()
      ensures selectedCategories == [] && selectedLayer == None && selectedObjects == []
    {
      selectedCategories := [];
      selectedLayer := None;
      selectedObjects := [];
    }

    /** Click on the `index`-th entry of the result list: the same rule as
        a click on the canvas. */
    method HandleListItemClick(index: nat, shiftKey: bool)
      requires Valid() && index < |Filtered()|
      modifies this
      ensures Valid()
      ensures selectedObjects == ClickCommit(old(selectedObjects), index, shiftKey)
      ensures selectedCategories == old(selectedCategories) && selectedLayer == old(selectedLayer)
    {
      selectedObjects := ClickCommit(selectedObjects, index, shiftKey);
    }

    /** A pointer release on the canvas, which draws the filtered objects:
        whatever selection the canvas hands back replaces this one. */
    method HandleCanvasMouseUp(canvas: Canvas.BoundingBoxCanvas, ev: Canvas.MouseEvent)
      requires Valid() && canvas.Valid() && canvas.objects == Filtered()
      modifies this, canvas, canvas.frame
      ensures Valid() && canvas.Valid()
      ensures selectedCategories == old(selectedCategories) && selectedLayer == old(selectedLayer)
      ensures ev.button != Canvas.PrimaryButton ==> selectedObjects == old(selectedObjects)
      // ending a drag: cleared inside the dead-zone, otherwise the drag commit
      ensures ev.button == Canvas.PrimaryButton && old(canvas.frame.isSelecting) ==>
        selectedObjects == (if old(canvas.frame.hasMovedWhileSelecting)
                            then DragCommit(old(selectedObjects), old(canvas.frame.EndSelection(canvas.objects)), ev.shiftKey)
                            else [])
      // a click on a hover set commits its active entry
      ensures ev.button == Canvas.PrimaryButton && !old(canvas.frame.isSelecting) && old(canvas.hoveredObjects) != [] ==>
        selectedObjects == ClickCommit(old(selectedObjects), old(canvas.hoveredObjects)[old(canvas.activeHoverIndex)], ev.shiftKey)
      // a click on empty space clears the selection
      ensures ev.button == Canvas.PrimaryButton && !old(canvas.frame.isSelecting) && old(canvas.hoveredObjects) == [] ==>
        selectedObjects == []
      // the canvas's own new state, as its pointer-up handler leaves it
      ensures canvas.hoveredObjects == old(canvas.hoveredObjects) && canvas.pointerCursor == old(canvas.pointerCursor)
      ensures canvas.transform == old(canvas.transform)
      ensures canvas.canvasWidth == old(canvas.canvasWidth) && canvas.canvasHeight == old(canvas.canvasHeight)
      ensures ev.button != Canvas.PrimaryButton ==>
        canvas.activeHoverIndex == old(canvas.activeHoverIndex) && unchanged(canvas.frame)
      ensures ev.button == Canvas.PrimaryButton && old(canvas.frame.isSelecting) ==>
        && !canvas.frame.isSelecting && canvas.frame.selectionRect == None && !canvas.frame.hasMovedWhileSelecting
        && canvas.frame.startPos == old(canvas.frame.startPos)
        && canvas.activeHoverIndex == old(canvas.activeHoverIndex)
      ensures ev.button == Canvas.PrimaryButton && !old(canvas.frame.isSelecting) && old(canvas.hoveredObjects) != [] ==>
        && canvas.activeHoverIndex == Canvas.NextHoverIndex(old(canvas.activeHoverIndex), |old(canvas.hoveredObjects)|)
        && unchanged(canvas.frame)
      ensures ev.button == Canvas.PrimaryButton && !old(canvas.frame.isSelecting) && old(canvas.hoveredObjects) == [] ==>
        canvas.activeHoverIndex == old(canvas.activeHoverIndex) && unchanged(canvas.frame)
    {
      var emitted := canvas.HandleMouseUp(ev, selectedObjects);
      if emitted.Some? {
        selectedObjects := emitted.value;
      }
    }
  }
}
