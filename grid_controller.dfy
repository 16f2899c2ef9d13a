// The click state machine of the grid (src/game/engine/GridController.ts).
// Drawing is left to a renderer that is not modelled: where the controller
// asks it to redraw, nothing happens here, and the grid cell under a click
// (or none) is the input of a click.
module Controller {
  import opened Wrappers
  import opened JsSets
  import opened Grid

  /**
   * What a click on `position` does to the neighbours and to the neighbour
   * being inspected: a click off the grid does nothing, a click on an empty
   * cell places a neighbour, a click on a neighbour inspects it, and a
   * second click on the inspected neighbour removes it.
   */
  function AfterClick(neighbors: seq<Key>, inspecting: Option<Position>, position: Option<Position>): (seq<Key>, Option<Position>) {
    match position
    case None => (neighbors, inspecting)
    case Some(p) =>
      var key := PositionToKey(p);
      var isInspecting := inspecting.Some? && PositionToKey(inspecting.value) == key;
      if key in neighbors then
        if isInspecting then (Delete(neighbors, key), None) else (neighbors, Some(p))
      else (Add(neighbors, key), None)
  }

  /** A click keeps the neighbours a set and the inspected cell a neighbour. */
  lemma ClickKeepsInvariant(neighbors: seq<Key>, inspecting: Option<Position>, position: Option<Position>)
    requires NoDup(neighbors)
    requires inspecting.Some? ==> Has(neighbors, inspecting.value)
    ensures var (n, i) := AfterClick(neighbors, inspecting, position);
      NoDup(n) && (i.Some? ==> Has(n, i.value))
  {
  }

  /**
   * Three clicks on an empty cell place a neighbour, inspect it and remove
   * it, leaving the neighbours as they were.
   */
  lemma PlaceInspectRemove(neighbors: seq<Key>, inspecting: Option<Position>, p: Position)
    requires !Has(neighbors, p)
    ensures var (n1, i1) := AfterClick(neighbors, inspecting, Some(p));
      var (n2, i2) := AfterClick(n1, i1, Some(p));
      var (n3, i3) := AfterClick(n2, i2, Some(p));
      && n1 == Add(neighbors, PositionToKey(p)) && i1.None?
      && n2 == n1 && i2 == Some(p)
      && n3 == neighbors && i3.None?
  {
    DeleteAdded(neighbors, PositionToKey(p));
  }

  /** Clicking a neighbour other than the inspected one moves the inspection to it. */
  lemma ClickOtherNeighbor(neighbors: seq<Key>, inspected: Position, p: Position)
    requires Has(neighbors, p) && p != inspected
    ensures AfterClick(neighbors, Some(inspected), Some(p)) == (neighbors, Some(p))
  {
    if PositionToKey(inspected) == PositionToKey(p) {
      PositionToKeyInjective(inspected, p);
    }
  }

  /** GridController. */
  class GridController {
    var gridState: GridState
    var inspectingPosition: Option<Position>

    /** The neighbours form a set and the inspected cell, if any, holds a neighbour. */
    predicate Valid()
      reads this
    {
      && NoDup(gridState.neighbors)
      && (inspectingPosition.Some? ==> Has(gridState.neighbors, inspectingPosition.value))
    }

    /** The grid is four by four unless a size is given. */
    constructor(size: int := 4)
      ensures gridState == CreateGridState(size) && inspectingPosition.None?
      ensures Valid()
    {
      gridState := CreateGridState(size);
      inspectingPosition := None;
    }

    /** handleCellClick, given the cell under the pointer (None when it is off the grid). */
    method HandleCellClick(position: Option<Position>)
      requires Valid()
      modifies this
      ensures (gridState.neighbors, inspectingPosition)
           == AfterClick(old(gridState.neighbors), old(inspectingPosition), position)
      ensures gridState == old(gridState).(neighbors := gridState.neighbors)
      ensures Valid()
    {
      ClickKeepsInvariant(gridState.neighbors, inspectingPosition, position);
      if position.None? {
        return;
      }
      var p := position.value;
      var key := PositionToKey(p);
      var hasNeighbor := key in gridState.neighbors;
      var isInspecting := inspectingPosition.Some? && PositionToKey(inspectingPosition.value) == key;
      if hasNeighbor {
        if isInspecting {
          RemoveNeighbor(p);
        } else {
          EnterInspectMode(p);
        }
      } else {
        PlaceNeighbor(p);
      }
    }

    method PlaceNeighbor(position: Position)
      modifies this
      ensures gridState == old(gridState).(neighbors := Add(old(gridState.neighbors), PositionToKey(position)))
      ensures inspectingPosition.None?
      ensures Has(gridState.neighbors, position)
    {
      var key := PositionToKey(position);
      gridState := gridState.(neighbors := Add(gridState.neighbors, key));
      ClearInspectMode();
    }

    method RemoveNeighbor(position: Position)
      modifies this
      ensures gridState == old(gridState).(neighbors := Delete(old(gridState.neighbors), PositionToKey(position)))
      ensures inspectingPosition.None?
      ensures !Has(gridState.neighbors, position)
    {
      var key := PositionToKey(position);
      gridState := gridState.(neighbors := Delete(gridState.neighbors, key));
      ClearInspectMode();
    }

    method EnterInspectMode(position: Position)
      modifies this
      ensures gridState == old(gridState) && inspectingPosition == Some(position)
    {
      inspectingPosition := Some(position);
    }

    method ClearInspectMode()
      modifies this
      ensures gridState == old(gridState) && inspectingPosition.None?
    {
      inspectingPosition := None;
    }

    /** getGridState: the state with a new neighbour set holding the same keys in the same order. */
    function GetGridState(): (r: GridState)
      reads this
      ensures r == gridState.(neighbors := r.neighbors)
      ensures NoDup(r.neighbors) && forall k :: k in r.neighbors <==> k in gridState.neighbors
      ensures Valid() ==> r == gridState
    {
      assert NoDup(gridState.neighbors) ==> FromArray(gridState.neighbors) == gridState.neighbors by {
        if NoDup(gridState.neighbors) {
          FromArrayOfSet(gridState.neighbors);
        }
      }
      gridState.(neighbors := FromArray(gridState.neighbors))
    }

    method SetGridState(newState: GridState)
      modifies this
      ensures gridState == newState && inspectingPosition.None?
      ensures NoDup(newState.neighbors) ==> Valid()
    {
      gridState := newState;
      ClearInspectMode();
    }

    method ClearGrid()
      modifies this
      ensures gridState == old(gridState).(neighbors := []) && inspectingPosition.None?
      ensures Valid()
    {
      gridState := gridState.(neighbors := []);
      ClearInspectMode();
    }
  }
}
