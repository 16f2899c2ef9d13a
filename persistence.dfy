// The persisted form of a game and of the player's progress
// (src/game/types/persistence.ts).  Sets become arrays on the way to
// storage and arrays become sets on the way back.
module Persistence {
  import opened Wrappers
  import opened JsSets
  import opened Grid

  datatype SerializableDeadEndMarker = SerializableDeadEndMarker(position: Position, dependencyChain: seq<Key>)

  /** What is stored of a game in progress. */
  datatype PersistableGameState = PersistableGameState(
    size: int,
    neighbors: seq<Key>,
    deadEndData: seq<SerializableDeadEndMarker>,
    moveHistory: seq<Position>)

  /** What deserializeGameState hands back: the grid-state fields a game needs. */
  datatype RestoredGameState = RestoredGameState(
    size: int,
    neighbors: seq<Key>,
    deadEndData: seq<DeadEndMarker>,
    moveHistory: seq<Position>)

  datatype WinStatus = WinStatus(
    hasWon: bool,
    winningSolution: Option<seq<Position>>,
    completionTimestamp: Option<int>)

  datatype PuzzleStats = PuzzleStats(
    numDeadEnds: Option<int>,
    bestNumPlacements: Option<int>,
    totalAttempts: Option<int>)

  /** Everything stored for one puzzle. */
  datatype LevelPersistence = LevelPersistence(
    puzzleId: string,
    puzzleNumber: int,
    winStatus: WinStatus,
    gameState: Option<PersistableGameState>,
    stats: PuzzleStats,
    lastModified: int)

  datatype Metadata = Metadata(
    totalPuzzlesSolved: int,
    lastPlayedPuzzleId: Option<string>,
    createdTimestamp: int,
    lastModified: int)

  /** Everything stored for the player; `levels` is keyed by puzzle id. */
  datatype PlayerProgress = PlayerProgress(
    version: string,
    levels: map<string, LevelPersistence>,
    metadata: Metadata)

  /** A dead end whose dependency chain is a well-formed set. */
  predicate ChainsAreSets(deadEndData: seq<DeadEndMarker>) {
    forall i | 0 <= i < |deadEndData| :: NoDup(deadEndData[i].dependencyChain)
  }

  /** One dead end with its set turned into an array. */
  function SerializeMarker(marker: DeadEndMarker): (r: SerializableDeadEndMarker)
    ensures r.position == marker.position
    ensures forall k :: k in r.dependencyChain <==> k in marker.dependencyChain
    ensures NoDup(marker.dependencyChain) ==> NoDup(r.dependencyChain)
  {
    SerializableDeadEndMarker(marker.position, marker.dependencyChain)
  }

  /** One stored dead end with its array turned back into a set. */
  function DeserializeMarker(marker: SerializableDeadEndMarker): (r: DeadEndMarker)
    ensures r.position == marker.position
    ensures NoDup(r.dependencyChain)
    ensures forall k :: k in r.dependencyChain <==> k in marker.dependencyChain
  {
    DeadEndMarker(marker.position, FromArray(marker.dependencyChain))
  }

  /**
   * serializeGameState: the size as it is, each set as the array of its
   * elements in insertion order, every dead end in place, and a copy of
   * the move history.
   */
  function SerializeGameState(size: int, neighbors: seq<Key>, deadEndData: seq<DeadEndMarker>, moveHistory: seq<Position>): (r: PersistableGameState)
    ensures r.size == size
    ensures forall k :: k in r.neighbors <==> k in neighbors
    ensures NoDup(neighbors) ==> NoDup(r.neighbors)
    ensures |r.deadEndData| == |deadEndData|
    ensures forall i | 0 <= i < |deadEndData| ::
      && r.deadEndData[i].position == deadEndData[i].position
      && (forall k :: k in r.deadEndData[i].dependencyChain <==> k in deadEndData[i].dependencyChain)
    ensures r.moveHistory == moveHistory
  {
    PersistableGameState(
      size,
      neighbors,
      seq(|deadEndData|, i requires 0 <= i < |deadEndData| => SerializeMarker(deadEndData[i])),
      moveHistory)
  }

  /**
   * deserializeGameState: the size as it is, every array turned into a set
   * (repeated elements dropped), dead ends in place, and a copy of the move
   * history.
   */
  function DeserializeGameState(persistedState: PersistableGameState): (r: RestoredGameState)
    ensures r.size == persistedState.size
    ensures NoDup(r.neighbors)
    ensures forall k :: k in r.neighbors <==> k in persistedState.neighbors
    ensures |r.deadEndData| == |persistedState.deadEndData|
    ensures ChainsAreSets(r.deadEndData)
    ensures forall i | 0 <= i < |r.deadEndData| :: r.deadEndData[i].position == persistedState.deadEndData[i].position
    ensures r.moveHistory == persistedState.moveHistory
  {
    var data := persistedState.deadEndData;
    RestoredGameState(
      persistedState.size,
      FromArray(persistedState.neighbors),
      seq(|data|, i requires 0 <= i < |data| => DeserializeMarker(data[i])),
      persistedState.moveHistory)
  }

  /**
   * Storing a game and reading it back restores it exactly: the size, the
   * neighbour set in its insertion order, every dead end and the moves.
   */
  lemma DeserializeSerialize(size: int, neighbors: seq<Key>, deadEndData: seq<DeadEndMarker>, moveHistory: seq<Position>)
    requires NoDup(neighbors) && ChainsAreSets(deadEndData)
    ensures DeserializeGameState(SerializeGameState(size, neighbors, deadEndData, moveHistory))
         == RestoredGameState(size, neighbors, deadEndData, moveHistory)
  {
    var restored := DeserializeGameState(SerializeGameState(size, neighbors, deadEndData, moveHistory));
    FromArrayOfSet(neighbors);
    forall i | 0 <= i < |deadEndData|
      ensures restored.deadEndData[i] == deadEndData[i]
    {
      FromArrayOfSet(deadEndData[i].dependencyChain);
    }
  }

  /**
   * Reading a stored game and storing it again keeps every element; when
   * the stored arrays had no repeats, it gives back the same record.
   */
  lemma SerializeDeserialize(persistedState: PersistableGameState)
    ensures var r := DeserializeGameState(persistedState);
      var again := SerializeGameState(r.size, r.neighbors, r.deadEndData, r.moveHistory);
      && again.size == persistedState.size
      && (forall k :: k in again.neighbors <==> k in persistedState.neighbors)
      && |again.deadEndData| == |persistedState.deadEndData|
      && again.moveHistory == persistedState.moveHistory
      && (NoDup(persistedState.neighbors)
          && (forall i | 0 <= i < |persistedState.deadEndData| :: NoDup(persistedState.deadEndData[i].dependencyChain))
          ==> again == persistedState)
  {
    var r := DeserializeGameState(persistedState);
    var again := SerializeGameState(r.size, r.neighbors, r.deadEndData, r.moveHistory);
    var data := persistedState.deadEndData;
    if NoDup(persistedState.neighbors) && forall i | 0 <= i < |data| :: NoDup(data[i].dependencyChain) {
      FromArrayOfSet(persistedState.neighbors);
      forall i | 0 <= i < |data|
        ensures again.deadEndData[i] == data[i]
      {
        FromArrayOfSet(data[i].dependencyChain);
      }
    }
  }
}
