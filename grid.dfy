// Grid positions, their string keys, and the grid state record
// (src/game/types/grid.ts).
module Grid {
  import opened Wrappers
  import opened JsText

  datatype Position = Position(row: int, col: int)

  /** A position written as "row,col": how positions are stored in sets. */
  type Key = string

  datatype DeadEndMarker = DeadEndMarker(position: Position, dependencyChain: seq<Key>)

  datatype InspectionKind = NeighborInspection | ForbiddenSquareInspection

  datatype InspectionMode = InspectionMode(kind: InspectionKind, position: Position)

  datatype ConstraintWarning = ConstraintWarning(overConstrainedRows: seq<int>, overConstrainedColumns: seq<int>)

  /**
   * The state of one grid.  Sets of keys are duplicate-free sequences in
   * insertion order (see module JsSets); an optional field that may be
   * absent is an Option.
   */
  datatype GridState = GridState(
    size: int,
    neighbors: seq<Key>,
    prePlacedNeighbors: seq<Key>,
    forbiddenSquares: seq<Key>,
    forcedMoves: seq<Key>,
    deadEnds: seq<DeadEndMarker>,
    deadEndData: seq<DeadEndMarker>,
    moveHistory: seq<Position>,
    constraintWarning: Option<ConstraintWarning>,
    inspectionMode: Option<InspectionMode>,
    isComplete: Option<bool>)

  function PositionToKey(p: Position): Key {
    IntToString(p.row) + "," + IntToString(p.col)
  }

  /**
   * `key.split(',').map(Number)` read as a position.  None stands for the
   * results that are not a position: a missing column, or a coordinate
   * that is NaN.  Fields after the second are ignored, as destructuring
   * ignores them.
   */
  function KeyToPosition(key: Key): Option<Position> {
    var fields := Split(key, ',');
    if |fields| < 2 then None
    else
      match (ParseNumber(fields[0]), ParseNumber(fields[1]))
      case (Int(r), Int(c)) => Some(Position(r, c))
      case _ => None
  }

  /** `keys.has(positionToKey(p))`: the cell `p` is in a set of keys. */
  predicate Has(keys: seq<Key>, p: Position) {
    PositionToKey(p) in keys
  }

  /** A key in the canonical form `PositionToKey` produces. */
  predicate IsKey(key: Key) {
    KeyToPosition(key).Some? && PositionToKey(KeyToPosition(key).value) == key
  }

  /** The position a canonical key stands for. */
  function PositionOf(key: Key): (p: Position)
    requires IsKey(key)
    ensures PositionToKey(p) == key
  {
    KeyToPosition(key).value
  }

  /** Reading a key back gives the position it was made from. */
  lemma KeyRoundTrip(p: Position)
    ensures KeyToPosition(PositionToKey(p)) == Some(p)
  {
    var a, b := IntToString(p.row), IntToString(p.col);
    IntToStringChars(p.row);
    IntToStringChars(p.col);
    assert PositionToKey(p) == a + [','] + b;
    SplitAtSeparator(a, ',', b);
    SplitNoSeparator(b, ',');
    ParseNumberIntToString(p.row);
    ParseNumberIntToString(p.col);
  }

  /** Every key made from a position is canonical and stands for that position. */
  lemma KeyOfPosition(p: Position)
    ensures IsKey(PositionToKey(p)) && PositionOf(PositionToKey(p)) == p
  {
    KeyRoundTrip(p);
  }

  /** Distinct positions have distinct keys. */
  lemma PositionToKeyInjective(p: Position, q: Position)
    requires PositionToKey(p) == PositionToKey(q)
    ensures p == q
  {
    KeyRoundTrip(p);
    KeyRoundTrip(q);
  }

  function CreateGridState(size: int): (g: GridState)
    ensures g.size == size
    ensures g.neighbors == g.prePlacedNeighbors == g.forbiddenSquares == g.forcedMoves == []
    ensures g.deadEnds == g.deadEndData == [] && g.moveHistory == []
    ensures g.constraintWarning.None? && g.inspectionMode.None? && g.isComplete.None?
  {
    GridState(size, [], [], [], [], [], [], [], None, None, None)
  }

  /** The last move played, or None before the first one. */
  function GetMostRecentNeighbor(g: GridState): (r: Option<Position>)
    ensures r.None? <==> |g.moveHistory| == 0
    ensures r.Some? ==> r.value == g.moveHistory[|g.moveHistory| - 1]
  {
    if |g.moveHistory| == 0 then None else Some(g.moveHistory[|g.moveHistory| - 1])
  }
}
