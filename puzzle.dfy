// The puzzle types: the symmetry classes of a puzzle's solutions and a
// puzzle's configuration (src/game/types/puzzle.ts).
module Puzzle {
  import opened JsText
  import opened Grid

  /** How many of the grid's symmetries the puzzle's solutions have. */
  datatype SymmetryClass = Iden | Dia1 | Ort1 | Rot2 | Dia2 | Rot4 | Ort2 | Full | Near

  /**
   * A puzzle as the catalogue hands it out.  `puzzleNumber` is whatever
   * `parseInt` made of the catalogue entry's prefix, so it may be NaN.
   */
  datatype PuzzleConfig = PuzzleConfig(
    id: string,
    puzzleNumber: JsNumber,
    size: int,
    symmetryClass: SymmetryClass,
    prePlacedNeighbors: seq<Position>)
}
