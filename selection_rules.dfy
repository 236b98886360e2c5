/** How a click or a finished drag turns into the new selection. The
    canvas and the result list apply the same click rule. A selection is
    a list of positions in the list of drawn objects. */
module SelectionRules {
  import opened Seqs

  /** A selection names drawn objects, each at most once. */
  predicate SelectionValid(sel: seq<nat>, count: nat) {
    NoDups(sel) && forall x :: x in sel ==> x < count
  }

  /** Click on `target`: a plain click selects just it; a shift-click
      toggles it in or out and leaves every other object as it was. */
  function ClickCommit(sel: seq<nat>, target: nat, shift: bool): (r: seq<nat>)
    ensures !shift ==> r == [target]
    ensures shift ==> (target in r <==> target !in sel)
    ensures shift ==> forall y :: y != target ==> (y in r <==> y in sel)
    ensures forall count: nat :: SelectionValid(sel, count) && target < count ==> SelectionValid(r, count)
  {
    if shift then Toggle(sel, target) else [target]
  }

  /** Commit a drag that left the dead-zone: a plain drag replaces the
      selection; a shift-drag keeps the old selection in front and appends
      the newly dragged objects that were not already selected. */
  function DragCommit(prior: seq<nat>, dragged: seq<nat>, shift: bool): (r: seq<nat>)
    ensures !shift ==> r == dragged
    ensures shift ==> |r| >= |prior| && r[..|prior|] == prior
    ensures shift ==> forall x :: x in r <==> x in prior || x in dragged
    ensures forall count: nat :: SelectionValid(prior, count) && SelectionValid(dragged, count) ==> SelectionValid(r, count)
  {
    if shift then AppendNew(prior, dragged) else dragged
  }
}
