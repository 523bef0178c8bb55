/** Drag-to-reorder in the page widget: a one-gesture state machine over the
    list rows, the drop indicator, and the index correction applied when the
    dragged row is dropped. */
module DragDrop {
  import opened Wrappers

  /** The active gesture: the row being dragged, the gap it would drop into
      (0 is above the first row, the row count is below the last) and the
      pointer that owns it. */
  datatype DragState = DragState(sourceIndex: int, insertIndex: int, pointerId: int)

  /** An `onReorder(sourceIndex, targetIndex)` call. */
  datatype Move = Move(sourceIndex: int, targetIndex: int)

  /** The vertical midpoint of row i at the moment of the pointer event; row
      geometry is read from the page and is not modelled. */
  type Geometry = int -> int

  /** The first row whose midpoint lies below the pointer, or the row count. */
  function InsertIndex(clientY: int, rowCount: nat, midpoint: Geometry): (r: nat)
    ensures r <= rowCount
    ensures forall j :: 0 <= j < r ==> clientY >= midpoint(j)
    ensures r < rowCount ==> clientY < midpoint(r)
  {
    InsertIndexFrom(clientY, rowCount, midpoint, 0)
  }

  function InsertIndexFrom(clientY: int, rowCount: nat, midpoint: Geometry, i: nat): (r: nat)
    requires i <= rowCount
    requires forall j :: 0 <= j < i ==> clientY >= midpoint(j)
    ensures i <= r <= rowCount
    ensures forall j :: 0 <= j < r ==> clientY >= midpoint(j)
    ensures r < rowCount ==> clientY < midpoint(r)
    decreases rowCount - i
  {
    if i == rowCount then rowCount
    else if clientY < midpoint(i) then i
    else InsertIndexFrom(clientY, rowCount, midpoint, i + 1)
  }

  /** `applyReorder`: dropping below the source row shifts the target up by
      one, because the source row is removed first; dropping back onto the
      source position is no move. */
  function ApplyReorder(state: DragState): (r: Option<Move>)
    ensures r.Some? ==> r.value.sourceIndex == state.sourceIndex && r.value.targetIndex != state.sourceIndex
    ensures r.Some? ==> r.value.targetIndex
                        == if state.insertIndex > state.sourceIndex then state.insertIndex - 1 else state.insertIndex
    ensures r.None? <==> state.insertIndex == state.sourceIndex || state.insertIndex == state.sourceIndex + 1
  {
    var target := if state.insertIndex > state.sourceIndex then state.insertIndex - 1 else state.insertIndex;
    if target != state.sourceIndex then Some(Move(state.sourceIndex, target)) else None
  }

  /** For a source row and a gap of an n-row list the target is a row of the list. */
  lemma ApplyReorderInRange(state: DragState, n: int)
    requires 0 <= state.sourceIndex < n && 0 <= state.insertIndex <= n
    ensures ApplyReorder(state).Some? ==> 0 <= ApplyReorder(state).value.targetIndex < n
  {
  }

  class DragDropManager {
    var dragState: Option<DragState>
    var dropIndicatorIndex: int
    var dropAfterLast: bool
    /** The number of rows captured by the active gesture's listeners. */
    var gestureRows: nat

    /** The active gesture, if any, points at a row and a gap of the captured rows. */
    predicate Valid()
      reads this
    {
      dragState.Some? ==>
        0 <= dragState.value.sourceIndex < gestureRows
        && 0 <= dragState.value.insertIndex <= gestureRows
    }

    constructor()
      ensures dragState.None? && dropIndicatorIndex == -1 && !dropAfterLast && Valid()
    {
      dragState := None;
      dropIndicatorIndex := -1;
      dropAfterLast := false;
      gestureRows := 0;
    }

    predicate IsDragging()
      reads this
    {
      dragState.Some?
    }

    /** `startDrag`: only the primary button starts a gesture, only when none is
        active, and only over at least two rows; a started gesture's drop gap is
        the source row. */
    method StartDrag(button: int, pointerId: int, sourceIndex: int, rowCount: nat) returns (started: bool)
      modifies this
      ensures started <==> button == 0 && old(dragState).None? && rowCount >= 2
      ensures started ==> dragState == Some(DragState(sourceIndex, sourceIndex, pointerId))
                          && gestureRows == rowCount
                          && dropAfterLast == (sourceIndex >= rowCount)
                          && dropIndicatorIndex == (if sourceIndex >= rowCount then -1 else sourceIndex)
      ensures !started ==> dragState == old(dragState) && gestureRows == old(gestureRows)
                           && dropIndicatorIndex == old(dropIndicatorIndex) && dropAfterLast == old(dropAfterLast)
      ensures started && 0 <= sourceIndex < rowCount ==> Valid()
    {
      if button != 0 {
        return false;
      }
      if dragState.Some? || rowCount < 2 {
        return false;
      }
      dragState := Some(DragState(sourceIndex, sourceIndex, pointerId));
      gestureRows := rowCount;
      SetDropIndicator(sourceIndex, rowCount);
      return true;
    }

    /** `onDragMove`: the gap under the pointer becomes the drop gap. */
    method OnDragMove(clientY: int, midpoint: Geometry)
      modifies this
      ensures old(dragState).None? ==> dragState == old(dragState)
                                       && dropIndicatorIndex == old(dropIndicatorIndex)
                                       && dropAfterLast == old(dropAfterLast)
      ensures old(dragState).Some? ==>
                var insert := InsertIndex(clientY, old(gestureRows), midpoint);
                dragState == Some(old(dragState).value.(insertIndex := insert))
                && dropAfterLast == (insert >= old(gestureRows))
                && dropIndicatorIndex == (if insert >= old(gestureRows) then -1 else insert)
      ensures gestureRows == old(gestureRows)
      ensures old(Valid()) ==> Valid()
    {
      if dragState.None? {
        return;
      }
      var insertIndex := ComputeInsertIndex(clientY, gestureRows, midpoint);
      dragState := Some(dragState.value.(insertIndex := insertIndex));
      SetDropIndicator(insertIndex, gestureRows);
    }

    /** `handlePointerUp`: only the gesture's own pointer ends it, and then the
        gesture is committed. */
    method HandlePointerUp(pointerId: int) returns (ended: bool, reorder: Option<Move>)
      modifies this
      ensures ended <==> old(dragState).Some? && old(dragState).value.pointerId == pointerId
      ensures !ended ==> dragState == old(dragState) && reorder.None?
                         && dropIndicatorIndex == old(dropIndicatorIndex) && dropAfterLast == old(dropAfterLast)
      ensures ended ==> dragState.None? && dropIndicatorIndex == -1 && !dropAfterLast
                        && reorder == ApplyReorder(old(dragState).value)
      ensures ended && old(Valid()) && reorder.Some? ==> 0 <= reorder.value.targetIndex < old(gestureRows)
      ensures Valid() == (ended || old(Valid()))
    {
      if dragState.None? || pointerId != dragState.value.pointerId {
        return false, None;
      }
      var committed := dragState.value;
      if old(Valid()) {
        ApplyReorderInRange(committed, gestureRows);
      }
      ended, reorder := TeardownDrag(true);
    }

    /** `handlePointerCancel`: only the gesture's own pointer ends it, and a
        cancelled gesture never reorders. */
    method HandlePointerCancel(pointerId: int) returns (ended: bool, reorder: Option<Move>)
      modifies this
      ensures ended <==> old(dragState).Some? && old(dragState).value.pointerId == pointerId
      ensures !ended ==> dragState == old(dragState)
                         && dropIndicatorIndex == old(dropIndicatorIndex) && dropAfterLast == old(dropAfterLast)
      ensures ended ==> dragState.None? && dropIndicatorIndex == -1 && !dropAfterLast
      ensures reorder.None?
      ensures Valid() == (ended || old(Valid()))
    {
      if dragState.None? || pointerId != dragState.value.pointerId {
        return false, None;
      }
      ended, reorder := TeardownDrag(false);
    }

    /** `teardownDrag`: the gesture and the indicator are cleared; only a commit reorders. */
    method TeardownDrag(commit: bool) returns (ended: bool, reorder: Option<Move>)
      modifies this
      ensures ended == old(dragState).Some?
      ensures !ended ==> dragState == old(dragState) && reorder.None?
                         && dropIndicatorIndex == old(dropIndicatorIndex) && dropAfterLast == old(dropAfterLast)
      ensures ended ==> dragState.None? && dropIndicatorIndex == -1 && !dropAfterLast
                        && reorder == (if commit then ApplyReorder(old(dragState).value) else None)
      ensures gestureRows == old(gestureRows)
    {
      if dragState.None? {
        return false, None;
      }
      var currentState := dragState.value;
      dragState := None;
      ClearDropIndicator();
      reorder := if commit then ApplyReorder(currentState) else None;
      ended := true;
    }

    /** `computeInsertIndex`: scans the rows top to bottom and stops at the
        first midpoint below the pointer. */
    method ComputeInsertIndex(clientY: int, rowCount: nat, midpoint: Geometry) returns (r: nat)
      ensures r == InsertIndex(clientY, rowCount, midpoint)
    {
      var i := 0;
      while i < rowCount
        invariant 0 <= i <= rowCount
        invariant forall j :: 0 <= j < i ==> clientY >= midpoint(j)
        invariant InsertIndexFrom(clientY, rowCount, midpoint, i) == InsertIndex(clientY, rowCount, midpoint)
      {
        if clientY < midpoint(i) {
          return i;
        }
        i := i + 1;
      }
      return rowCount;
    }

    /** `setDropIndicator`: a gap past the last row shows the after-last marker,
        any other gap marks the row below it. */
    method SetDropIndicator(insertIndex: int, rowCount: nat)
      modifies this
      ensures dropAfterLast == (insertIndex >= rowCount)
      ensures dropIndicatorIndex == (if insertIndex >= rowCount then -1 else insertIndex)
      ensures dragState == old(dragState) && gestureRows == old(gestureRows)
    {
      dropAfterLast := insertIndex >= rowCount;
      dropIndicatorIndex := if dropAfterLast then -1 else insertIndex;
    }

    method ClearDropIndicator()
      modifies this
      ensures dropIndicatorIndex == -1 && !dropAfterLast
      ensures dragState == old(dragState) && gestureRows == old(gestureRows)
    {
      dropIndicatorIndex := -1;
      dropAfterLast := false;
    }
  }
}
