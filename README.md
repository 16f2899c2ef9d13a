# Nebby Neighbor, modelled in Dafny

Nebby Neighbor is a browser puzzle of the "no three in a line" kind. The
player places two neighbours per row on an n×n grid. No three neighbours may
lie on one straight line, at any slope. This project models the game's core
and proves properties of it:

- **The collinearity engine** (`LineDetector`). Lines through two cells are
  kept in exact integers: a gcd-reduced rise/run and a y-intercept split into
  a whole part and a proper fraction. The engine scans the grid for the cells
  on a line. It computes the forbidden squares: empty cells on the line of
  some pair of neighbours. It also explains a neighbour or a forbidden square
  through its constraint relationships.
- **The puzzle catalogue** (`puzzleCatalog`): a hundred compressed entries.
  Each entry is a number, a symmetry character, and one `;`-separated field
  per column; each character of a field names a row (`0`–`9`, then `A`–`Z`).
  The model covers the parser and the lookups by id and by index.
- **Grid state** (`grid`): positions, their `"row,col"` keys and the grid
  record.
- **Persistence** (`persistence`, `PersistenceManager`): the serialisable
  form of a game, and the player-progress record kept in browser storage,
  with saving, loading, wins, "Play Again" and statistics.
- **The click state machine** of the grid (`GridController`).
- **The status bar's texts** (`StatusBar`): the neighbours-left counter and
  the level label.

The model follows JavaScript's semantics where the program relies on them:

- A `Set` is a duplicate-free sequence in insertion order (module `JsSets`),
  because `Array.from(set)` exposes that order.
- Integer formatting, `Number`, `parseInt`, `split` and `padStart` are
  written out in module `JsText`, for the inputs the program gives them.
- Thrown errors become a `Result`.
- `null` and `undefined` become an `Option`.
- Parts of the program that change fields in place become classes. Their
  methods are proved against specification functions.

Files:

| file | module |
|---|---|
| `wrappers.dfy` | `Wrappers`: `Option`, `Result` |
| `jssets.dfy` | `JsSets`: sets as sequences in insertion order |
| `text.dfy` | `JsText`: decimal text and the string primitives |
| `grid.dfy` | `Grid`: positions, keys, `GridState` |
| `puzzle.dfy` | `Puzzle`: `SymmetryClass`, `PuzzleConfig` |
| `line_algebra.dfy` | `LineAlgebra`: the exact line representation |
| `line_detector.dfy` | `LineDetection`: class `LineDetector` |
| `puzzle_catalog.dfy` | `PuzzleCatalog`: parser and lookups |
| `persistence.dfy` | `Persistence`: serialised game state |
| `persistence_manager.dfy` | `ProgressStore`: class `PersistenceManager` |
| `grid_controller.dfy` | `Controller`: class `GridController` |
| `status_bar.dfy` | `StatusDisplay`: class `StatusBar` |

## Model

| member | source | states |
|---|---|---|
| JsSets.Add | src/game/engine/GridController.ts:51 | `set.add`: the result holds exactly the old elements and `x`, keeps the old ones in order as a prefix, and stays duplicate-free |
| JsSets.Delete | src/game/engine/GridController.ts:58 | `set.delete`: the result holds exactly the old elements other than `x`, stays duplicate-free, and is no longer |
| JsSets.FromArray | src/game/types/persistence.ts:109 | `new Set(array)` is duplicate-free and holds exactly the array's elements |
| JsSets.FromArrayOfSet | src/game/types/persistence.ts:88-109 | an array read out of a set turns back into the same set, order included |
| JsSets.DeleteAdded | src/game/engine/GridController.ts:49-61 | adding an absent element and deleting it again restores the set exactly |
| JsSets.DeleteAbsent | src/game/engine/GridController.ts:58 | deleting an absent element changes nothing |
| JsSets.DeleteAt | src/game/engine/GridController.ts:58 | deleting any element of a set leaves the elements before it and after it, each in their order: the neighbour order that later pairs and saved arrays read |
| JsText.ParseNumberIntToString | src/game/types/grid.ts:37-44 | `Number` reads back every integer that template formatting writes |
| JsText.IntToStringInjective | src/game/types/grid.ts:37-39 | distinct integers format to distinct texts |
| JsText.ParseIntIntToString | src/game/ui/StatusBar.ts:48 | `parseInt` of a formatted integer followed by a non-digit reads back the integer |
| JsText.ParseIntPadded | src/game/data/puzzleCatalog.ts:178 | zero-padding with `padStart` keeps the value `parseInt` reads |
| JsText.ConcatSplit | src/game/data/puzzleCatalog.ts:150 | `split` loses exactly the separators: the fields put together are the text without them |
| Grid.KeyRoundTrip | src/game/types/grid.ts:37-44 | `keyToPosition(positionToKey(p))` is `p` for every position, negative coordinates included |
| Grid.KeyOfPosition | src/game/types/grid.ts:37-44 | every key `positionToKey` writes is canonical and stands for its position |
| Grid.PositionToKeyInjective | src/game/types/grid.ts:37-39 | distinct positions get distinct keys, so a key set is a position set |
| Grid.PositionOf | src/game/types/grid.ts:41-44 | the position read from a canonical key writes back to that key |
| Grid.CreateGridState | src/game/types/grid.ts:46-57 | a new grid of the given size with every set and list empty and no optional field |
| Grid.GetMostRecentNeighbor | src/game/types/grid.ts:59-62 | null exactly when there is no move; otherwise the last move |
| LineAlgebra.Gcd | src/game/engine/LineDetector.ts:284-291 | Euclid's recursion; positive when either argument is |
| LineAlgebra.GcdDivides | src/game/engine/LineDetector.ts:284-291 | the gcd divides both arguments |
| LineAlgebra.GcdReduced | src/game/engine/LineDetector.ts:146-149 | dividing by the gcd leaves coprime numbers, so rise/run is in lowest terms |
| LineAlgebra.ReducedDirection | src/game/engine/LineDetector.ts:146-155 | a sloped line's direction is the difference vector divided by the gcd and turned so run > 0; it has the points' slope |
| LineAlgebra.InterceptFacts | src/game/engine/LineDetector.ts:157-166 | the intercept's whole part and fraction add up to the numerator, and the fraction is proper and non-negative |
| LineAlgebra.GeneralLine | src/game/engine/LineDetector.ts:146-174 | a sloped line: run > 0, rise ≠ 0, the points' slope, a proper intercept fraction over `run`, and |rise|, run equal to the deltas divided by their gcd |
| LineAlgebra.LineShape | src/game/engine/LineDetector.ts:120-175 | vertical lines are (1, 0, column), horizontal lines (0, 1, row), and sloped lines are reduced with run > 0 and a proper fraction |
| LineAlgebra.LineSymmetric | src/game/engine/LineDetector.ts:120-175 | the line through two cells does not depend on their order |
| LineAlgebra.LineCanonical | src/game/engine/LineDetector.ts:120-175 | two pairs of distinct cells give the same `Line` exactly when all four cells are collinear: every line has one representation |
| LineAlgebra.EndpointsOnLine | src/game/engine/LineDetector.ts:120-200 | both defining cells satisfy `isPointOnLine` for their line |
| LineAlgebra.OnGeneralLine | src/game/engine/LineDetector.ts:193-199 | for a sloped line the cross-multiplied test is the point-slope equation |
| LineAlgebra.OnLineIffCollinear | src/game/engine/LineDetector.ts:120-200 | a cell is on the line through two distinct cells exactly when the three are collinear (zero cross product) |
| LineDetection.Positions | src/game/engine/LineDetector.ts:43-46 | one position per key, in set order, each writing back to its key |
| LineDetection.PositionsDistinct | src/game/engine/LineDetector.ts:43-46 | the positions of a key set are pairwise distinct |
| LineDetection.Unoccupied | src/game/engine/LineDetector.ts:220-224 | the filter keeps exactly the listed cells that hold no neighbour, in their order |
| LineDetection.ForbiddenIffCollinear | src/game/engine/LineDetector.ts:40-73 | a cell is forbidden exactly when it is in the grid, unoccupied, and collinear with two distinct neighbours |
| LineDetection.PairLineCollinear | src/game/engine/LineDetector.ts:52-60 | a cell on the line of a neighbour pair is collinear with two distinct neighbours |
| LineDetection.CollinearPairLine | src/game/engine/LineDetector.ts:52-60 | a cell collinear with two distinct neighbours is on the line of a pair i < j that the loops visit |
| LineDetection.AddUnoccupiedKeys | src/game/engine/LineDetector.ts:62-68 | the inner loop adds exactly the keys of the listed cells that hold no neighbour, and keeps a set of canonical keys |
| LineDetection.LineDetector.constructor | src/game/engine/LineDetector.ts:34 | the detector keeps its grid size |
| LineDetection.LineDetector.ComputeGcd | src/game/engine/LineDetector.ts:284-291 | the loop computes Euclid's gcd, which divides both arguments |
| LineDetection.LineDetector.FindGridPositionsOnLine | src/game/engine/LineDetector.ts:78-114 | exactly the in-grid cells on the line, in row-major order, for vertical, horizontal and sloped lines |
| LineDetection.LineDetector.CalculateForbiddenSquares | src/game/engine/LineDetector.ts:40-73 | empty for fewer than two neighbours; otherwise a set of keys, none a neighbour, naming exactly the forbidden cells |
| LineDetection.LineDetector.ForbidPairsFrom | src/game/engine/LineDetector.ts:53-69 | after pairs (i, j>i), the set holds exactly the empty in-grid cells on the lines of all pairs visited so far |
| LineDetection.LineDetector.EmptyCellsOnLine | src/game/engine/LineDetector.ts:220-224 | the empty in-grid cells on a line, row-major; non-empty exactly when such a cell exists |
| LineDetection.LineDetector.GetInspectionData | src/game/engine/LineDetector.ts:205-239 | one relationship per other neighbour whose line with the inspected cell has an empty cell: each sound (right pair, line and empty-cell list), none missing, no partner twice |
| LineDetection.LineDetector.InspectOther | src/game/engine/LineDetector.ts:215-233 | one pass of the loop keeps the inspection invariant: sound relationships in set order, every partner so far present |
| LineDetection.LineDetector.GetForbiddenSquareInfo | src/game/engine/LineDetector.ts:244-279 | one relationship per neighbour pair whose line holds the square: each for a pair i < j in set order, with its line and empty cells; none missing, no pair twice |
| LineDetection.LineDetector.VisitPairs | src/game/engine/LineDetector.ts:253-273 | the outer loop: after every row i, one relationship per visited pair whose line holds the square, in visiting order, and none missing |
| LineDetection.LineDetector.PairsFrom | src/game/engine/LineDetector.ts:254-272 | the inner loop keeps the pairs invariant: one relationship per visited pair whose line holds the square, in visiting order |
| LineDetection.LineDetector.PairStep | src/game/engine/LineDetector.ts:255-271 | one pair (i, j) keeps the pairs invariant |
| PuzzleCatalog.SymbolOf | src/game/data/puzzleCatalog.ts:110-120 | every symmetry class is filed under a symmetry character |
| PuzzleCatalog.SymmetryClassOf | src/game/data/puzzleCatalog.ts:110-120 | `SYMMETRY_CLASS_MAP`: each character's class is filed under that character, so the map is one-to-one |
| PuzzleCatalog.SymmetryClassOfSymbol | src/game/data/puzzleCatalog.ts:110-120 | every class is the image of its own character, so the map is onto |
| PuzzleCatalog.SymmetryIndex | src/game/data/puzzleCatalog.ts:131-141 | the first symmetry character, or none exactly when there is none |
| PuzzleCatalog.RowOf | src/game/data/puzzleCatalog.ts:164-171 | a row exactly for `0`–`9` and `A`–`Z`; rows below 10 exactly for digits; below 36, and written back by its character |
| PuzzleCatalog.DigitRow | src/game/data/puzzleCatalog.ts:165-166 | a digit's row is what `parseInt` reads from it |
| PuzzleCatalog.RowCharRoundTrip | src/game/data/puzzleCatalog.ts:164-171 | every row below 36 has a character that reads back as it |
| PuzzleCatalog.ColumnCells | src/game/data/puzzleCatalog.ts:160-174 | one field: one position per character, in the field's column, or the first character that names no row |
| PuzzleCatalog.CellsSucceed | src/game/data/puzzleCatalog.ts:158-175 | the fields decode exactly when every character in them names a row |
| PuzzleCatalog.CellsFail | src/game/data/puzzleCatalog.ts:158-175 | a failure names the first bad character in column-major order |
| PuzzleCatalog.CellsLayout | src/game/data/puzzleCatalog.ts:155-175 | on success, one position per field character, column-major, in the grid's columns and rows 0–35 |
| PuzzleCatalog.CellsPosition | src/game/data/puzzleCatalog.ts:158-175 | character k of field c is the neighbour at (its row, c), at offset (characters before field c) + k |
| PuzzleCatalog.ColumnCellsPrefixFailure | src/game/data/puzzleCatalog.ts:160-171 | once a prefix of a field throws, the whole field throws the same error |
| PuzzleCatalog.CellsPrefixFailure | src/game/data/puzzleCatalog.ts:158-171 | once the first fields throw, all fields throw the same error |
| PuzzleCatalog.PushColumn | src/game/data/puzzleCatalog.ts:159-174 | the inner loop appends the field's positions, or throws the field's first bad character |
| PuzzleCatalog.DecodeColumns | src/game/data/puzzleCatalog.ts:156-175 | the outer loop decodes the fields in order into the specification's positions or error |
| PuzzleCatalog.ParseCompressedPuzzle | src/game/data/puzzleCatalog.ts:123-184 | the scan-and-decode method returns exactly the specification `Parse` |
| PuzzleCatalog.ParseRejectsMissingSymmetry | src/game/data/puzzleCatalog.ts:143-145 | the format error is thrown exactly for an entry without a symmetry character |
| PuzzleCatalog.AllRowsOfSplit | src/game/data/puzzleCatalog.ts:149-150 | the fields hold only row characters exactly when the column data holds only those and `;` |
| PuzzleCatalog.ParseSucceeds | src/game/data/puzzleCatalog.ts:123-184 | an entry parses exactly when it has a symmetry character and everything after it is `;` or a row character |
| PuzzleCatalog.ParseRejectsCharacter | src/game/data/puzzleCatalog.ts:169-171 | the thrown character is the first bad one in column-major order; it is not `;`, names no row, and comes after the symmetry character |
| PuzzleCatalog.ParseFields | src/game/data/puzzleCatalog.ts:147-183 | the class of the first symmetry character, the number before it, id from number, size = number of `;` + 1, one neighbour per row character, column-major |
| PuzzleCatalog.ParseNumberUnsigned | src/game/data/puzzleCatalog.ts:148 | the puzzle number is never negative, and NaN exactly when the entry does not start with a digit |
| PuzzleCatalog.PuzzleIdDigits | src/game/data/puzzleCatalog.ts:178 | an id is `puzzle-`, then at least three digits that read back as the number |
| PuzzleCatalog.PuzzleIdInjective | src/game/data/puzzleCatalog.ts:178 | different puzzle numbers get different ids |
| PuzzleCatalog.GetPuzzleCount | src/game/data/puzzleCatalog.ts:205-207 | the catalogue holds a hundred entries |
| PuzzleCatalog.GetPuzzleByIndex | src/game/data/puzzleCatalog.ts:200-203 | null exactly outside 0 .. count-1; otherwise that entry's parse |
| PuzzleCatalog.GetDefaultPuzzle | src/game/data/puzzleCatalog.ts:196-198 | the puzzle at index 0 |
| PuzzleCatalog.FindPuzzleIndex | src/game/data/puzzleCatalog.ts:209-214 | `findIndex` with a parsing callback: -1, or an index in range whose entry has the id |
| PuzzleCatalog.FindPuzzleIndexSkips | src/game/data/puzzleCatalog.ts:209-214 | every entry before the index found, or every entry when -1, parses to another id |
| PuzzleCatalog.FindPuzzleIndexFails | src/game/data/puzzleCatalog.ts:209-214 | an error is the parse error of an entry whose predecessors all parse to other ids |
| PuzzleCatalog.FindPuzzleIndexNone | src/game/data/puzzleCatalog.ts:209-214 | -1 exactly when every entry parses to another id |
| PuzzleCatalog.GetPuzzleIndex | src/game/data/puzzleCatalog.ts:209-214 | over the catalogue: a found index is in range and its entry has the id; -1 exactly when no entry has it |
| PuzzleCatalog.FindPuzzle | src/game/data/puzzleCatalog.ts:186-194 | a puzzle found has the id and is an entry's parse; null exactly when every entry parses to another id |
| PuzzleCatalog.GetPuzzleById | src/game/data/puzzleCatalog.ts:186-194 | the same over the catalogue |
| Persistence.SerializeMarker | src/game/types/persistence.ts:89-92 | a dead end keeps its position, and its chain keeps its elements and stays duplicate-free |
| Persistence.DeserializeMarker | src/game/types/persistence.ts:110-113 | a stored dead end keeps its position; its chain becomes a set of the same elements |
| Persistence.SerializeGameState | src/game/types/persistence.ts:80-95 | size kept, sets become arrays of the same elements, dead ends in place, moves copied |
| Persistence.DeserializeGameState | src/game/types/persistence.ts:101-116 | size kept, arrays become sets of the same elements, dead ends in place with set chains, moves copied |
| Persistence.DeserializeSerialize | src/game/types/persistence.ts:80-116 | storing a game and reading it back restores it exactly, set order included |
| Persistence.SerializeDeserialize | src/game/types/persistence.ts:80-116 | reading and re-storing keeps every element; with no repeated elements it gives back the same record |
| ProgressStore.ValidateProgress | src/game/services/PersistenceManager.ts:71-80 | accepts exactly an object with a string version, object levels and object metadata whose solved count is a number; throws exactly for null metadata |
| ProgressStore.SavedProgressValidates | src/game/services/PersistenceManager.ts:71-95 | a record the program saved always passes validation |
| ProgressStore.CreateEmptyProgress | src/game/services/PersistenceManager.ts:55-66 | version 1.0.0, no levels, nothing solved, no last played id, both timestamps now |
| ProgressStore.LoadSaved | src/game/services/PersistenceManager.ts:26-50 | loading what was saved keeps it and gives back the same record |
| ProgressStore.LoadInvalid | src/game/services/PersistenceManager.ts:26-50 | missing, unparsable or invalid stored data is replaced by fresh progress |
| ProgressStore.EnsureLevel | src/game/services/PersistenceManager.ts:113-122 | the level exists afterwards; an existing record is untouched, a missing one starts unwon |
| ProgressStore.MergeStats | src/game/services/PersistenceManager.ts:284-287 | properties the patch has win, the others stay |
| ProgressStore.LoadedGame | src/game/services/PersistenceManager.ts:135-149 | null exactly when the level has no stored game; otherwise its deserialisation |
| ProgressStore.PlayerStatsOf | src/game/services/PersistenceManager.ts:230-244 | attempted = number of level records; solved and last played copied from the metadata |
| ProgressStore.LastPlayedOf | src/game/services/PersistenceManager.ts:249-251 | `|| null`: an empty id reads as none, any other id as itself |
| ProgressStore.EmptyProgressConsistent | src/game/services/PersistenceManager.ts:55-66 | fresh progress counts as many solved puzzles as it has won records (none) |
| ProgressStore.SaveGameStateEffect | src/game/services/PersistenceManager.ts:101-130 | stores the game and the last played id, creates an unwon record if missing, keeps the win, the other levels and the solved count |
| ProgressStore.LoadAfterSave | src/game/services/PersistenceManager.ts:101-149 | loadGameState after saveGameState gives back the game that was saved |
| ProgressStore.RecordWinEffect | src/game/services/PersistenceManager.ts:154-192 | the level is won with the solution, its game dropped, an earlier non-zero completion time kept, the solved count raised only on a first win |
| ProgressStore.RecordWinTwice | src/game/services/PersistenceManager.ts:173-188 | a second win of the same puzzle adds nothing to the solved count |
| ProgressStore.WinningSolutionRecorded | src/game/services/PersistenceManager.ts:154-218 | after recordWin, getWinningSolution gives the solution; "Play Again" keeps every solution |
| ProgressStore.ClearGameStateEffect | src/game/services/PersistenceManager.ts:198-204 | unknown id: nothing changes; otherwise the game is dropped and the win, stats and solved count kept |
| ProgressStore.UpdateStatsEffect | src/game/services/PersistenceManager.ts:281-290 | unknown id: nothing changes; otherwise the stats are merged and the win and game kept |
| ProgressStore.LastPlayedAfterVisit | src/game/services/PersistenceManager.ts:249-276 | after updateCurrentLevel or saveGameState the last played id is the level's (none for an empty id) |
| ProgressStore.OperationsKeepConsistent | src/game/services/PersistenceManager.ts:101-290 | every operation keeps the solved count equal to the number of won records |
| ProgressStore.PersistenceManager.constructor | src/game/services/PersistenceManager.ts:19-50 | keeps valid stored progress; otherwise starts fresh and writes it to storage |
| ProgressStore.PersistenceManager.SaveProgress | src/game/services/PersistenceManager.ts:85-95 | stamps the modification time and writes the record to storage |
| ProgressStore.PersistenceManager.SaveGameState | src/game/services/PersistenceManager.ts:101-130 | the new progress is the saveGameState specification, and it is written to storage |
| ProgressStore.PersistenceManager.LoadGameState | src/game/services/PersistenceManager.ts:135-149 | a game exactly when the level has one, with its neighbours a set |
| ProgressStore.PersistenceManager.RecordWin | src/game/services/PersistenceManager.ts:154-192 | the new progress is the recordWin specification, and it is written to storage |
| ProgressStore.PersistenceManager.ClearGameState | src/game/services/PersistenceManager.ts:198-204 | the clearGameState specification; storage is written only for a known id |
| ProgressStore.PersistenceManager.HasCompletedPuzzle | src/game/services/PersistenceManager.ts:209-211 | true exactly for the ids of won records |
| ProgressStore.PersistenceManager.GetWinningSolution | src/game/services/PersistenceManager.ts:216-218 | the level's stored solution, or null when there is no record or no solution |
| ProgressStore.PersistenceManager.HasActiveGameState | src/game/services/PersistenceManager.ts:223-225 | true exactly when loadGameState gives a game |
| ProgressStore.PersistenceManager.GetPlayerStats | src/game/services/PersistenceManager.ts:230-244 | attempted = number of records; for consistent progress solved = number of won records |
| ProgressStore.PersistenceManager.GetLastPlayedPuzzleId | src/game/services/PersistenceManager.ts:249-251 | the last played id when it is non-empty, else null |
| ProgressStore.PersistenceManager.UpdateCurrentLevel | src/game/services/PersistenceManager.ts:257-276 | the new progress is the updateCurrentLevel specification, and it is written to storage |
| ProgressStore.PersistenceManager.UpdateStats | src/game/services/PersistenceManager.ts:281-290 | the updateStats specification; storage is written only for a known id |
| ProgressStore.PersistenceManager.ClearAllProgress | src/game/services/PersistenceManager.ts:319-322 | fresh progress, written to storage |
| Controller.ClickKeepsInvariant | src/game/engine/GridController.ts:29-70 | a click keeps the neighbours a set and the inspected cell a neighbour |
| Controller.PlaceInspectRemove | src/game/engine/GridController.ts:29-61 | three clicks on an empty cell place, inspect and remove a neighbour, restoring the set exactly |
| Controller.ClickOtherNeighbor | src/game/engine/GridController.ts:38-43 | clicking a neighbour other than the inspected one moves the inspection to it |
| Controller.GridController.constructor | src/game/engine/GridController.ts:10-17 | an empty grid of the given size, four by four when none is given, with nothing inspected |
| Controller.GridController.HandleCellClick | src/game/engine/GridController.ts:29-47 | off-grid: nothing; empty cell: place; neighbour: inspect; inspected neighbour: remove. Only the neighbours and the inspection change, and the invariant holds |
| Controller.GridController.PlaceNeighbor | src/game/engine/GridController.ts:49-54 | the cell's key is added, inspection cleared, nothing else changes |
| Controller.GridController.RemoveNeighbor | src/game/engine/GridController.ts:56-61 | the cell's key is deleted, inspection cleared, nothing else changes |
| Controller.GridController.EnterInspectMode | src/game/engine/GridController.ts:63-66 | inspects the cell, grid unchanged |
| Controller.GridController.ClearInspectMode | src/game/engine/GridController.ts:68-70 | nothing inspected, grid unchanged |
| Controller.GridController.GetGridState | src/game/engine/GridController.ts:76-78 | a copy whose neighbour set holds the same keys; equal to the state when the invariant holds |
| Controller.GridController.SetGridState | src/game/engine/GridController.ts:80-84 | the state is replaced and inspection cleared |
| Controller.GridController.ClearGrid | src/game/engine/GridController.ts:86-90 | the neighbours are emptied, inspection cleared, the rest kept |
| StatusDisplay.CalculateRemainingNeighbors | src/game/ui/StatusBar.ts:112-116 | remaining + pre-placed + placed = 2·size; negative exactly when more than 2·size are placed |
| StatusDisplay.CounterLabel | src/game/ui/StatusBar.ts:46-56 | the labelled counter reads back as the count, says "neighbor" exactly for one, and is the default |
| StatusDisplay.CounterNumber | src/game/ui/StatusBar.ts:43-45 | the plain counter reads back as the count |
| StatusDisplay.CounterIcon | src/game/ui/StatusBar.ts:50-52 | the icon counter is the icon, a space, and text that reads back as the count |
| StatusDisplay.LevelIndex | src/game/ui/StatusBar.ts:72-79 | `index || 1`: never 0; a missing or zero index shows as 1 |
| StatusDisplay.LevelLabels | src/game/ui/StatusBar.ts:74-81 | "Level n" and "#n" read back as the level number |
| StatusDisplay.LevelIdLabel | src/game/ui/StatusBar.ts:70-73 | `{size}x{size}-` then at least three digits that read back as a positive level number |
| StatusDisplay.MergeConfig | src/game/ui/StatusBar.ts:88-89 | properties the partial configuration has win, the others stay |
| StatusDisplay.MergeConfigIdempotent | src/game/ui/StatusBar.ts:88-89 | applying the same partial configuration twice changes nothing more |
| StatusDisplay.StatusBar.constructor | src/game/ui/StatusBar.ts:21-35 | the default configuration (labelled counter, friendly level), no puzzle shown |
| StatusDisplay.StatusBar.UpdateCounter | src/game/ui/StatusBar.ts:37-61 | the counter shows the style's text for the count; nothing else changes |
| StatusDisplay.StatusBar.UpdateLevel | src/game/ui/StatusBar.ts:63-85 | remembers the puzzle and shows the style's level text; nothing else changes |
| StatusDisplay.StatusBar.UpdateStyle | src/game/ui/StatusBar.ts:88-110 | merges the configuration and redraws the level label of a shown puzzle |

## Left out

- Browser storage is a field: `localStorage` is the `stored` field of `PersistenceManager`.
- JSON is modelled only as parsed values. The JSON text, `JSON.stringify`, and a parsed value being read as a record are not modelled. The record is supplied beside the value, because a TypeScript cast checks nothing.
- A failing `setItem`, whose error is only logged, is not modelled.
- `getStorageInfo` is not modelled. It reports a `Blob` byte size and debugging counts.
- Each call reads `Date.now()` once, as the `now` parameter. The source reads the clock several times within one call.
- The `this.progress === null` branches are left out. The constructor always sets `progress`, so they cannot be reached.
- `console` output is left out.
- The renderer, the canvas, event listeners, `resize` and `setTheme` are left out.
- The cell under a click is an input to `HandleCellClick`. The renderer's screen-to-grid conversion is not modelled.
- The colours, `hide`/`show` and missing DOM elements of the status bar are left out. Its texts are fields, initially empty.
- `Number` and `parseInt` cover decimal integers with an optional sign, which is everything the program passes them. Whitespace, hexadecimal, exponents and fractions are not modelled, and neither is floating-point rounding of very large integers.
- Integers are unbounded, while JavaScript numbers are doubles. `getLineFromTwoPoints` divides with `Math.floor(numerator / denominator)` in floating point, and `isPointOnLine` multiplies three coordinates. The model computes both exactly, so `OnLineIffCollinear` holds for every integer position. JavaScript agrees with it on the program's grids: rows are 0–35 and columns are few, so every product stays far below 2^53 and every quotient floors to the exact integer result. For coordinates near 2^53 the source could differ, and that is not modelled.
- Strings are sequences of characters. The status bar's icon is one character here, while JavaScript counts two UTF-16 code units.
- Object keys that clash with `Object.prototype` properties are not modelled.
- Aliasing is not modelled. The source shares arrays and records (the shallow copy of `getGridState`, the `[...moveHistory]` copies), while the model copies values.
- LineDetection.LineDetector.CalculateForbiddenSquares: requires every neighbour key to be canonical, as `positionToKey` writes it. A hand-made key such as `"01,2"` would also parse, but no caller of the engine produces one.
- LineDetection.LineDetector.GetInspectionData: requires every neighbour key to be canonical. The set order of the relationships is kept by the loop invariant, not stated in the `ensures`.
- LineDetection.LineDetector.GetForbiddenSquareInfo: requires every neighbour key to be canonical. The visiting order of the relationships is kept by the loop invariant, not stated in the `ensures`.
- `forcedMoves`, dead-end computation and over-constraint warnings exist only as fields of `GridState`. The code that computes them is outside the modelled files.
- PuzzleCatalog.GetPuzzleById: it is not proved which of the hundred catalogue entries parse or that their ids are distinct. The contracts hold for any catalogue.
- PuzzleCatalog.FindPuzzleIndex: it parses every entry up to the result as a pure function. `findIndex` stops at the first match, which gives the same result because parsing has no side effects.
- StatusDisplay.StatusBar.UpdateLevel: reads `puzzle.metadata?.index`, a property the declared `PuzzleConfig` lacks. It is the separate `metadataIndex` input here.
- ProgressStore.ProgressJson: only the fields that `validateProgress` reads are modelled of a saved record's parsed form, plus each level's id.
