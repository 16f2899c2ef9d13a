// Player progress and its operations (src/game/services/PersistenceManager.ts).
// The browser's storage is the field `stored`, holding what was last written
// under the progress key; the clock is a `now` parameter read once per call.
module ProgressStore {
  import opened Wrappers
  import opened Grid
  import opened Persistence
  import JsSets

  const CurrentVersion: string := "1.0.0"

  // ---------------------------------------------------------------------
  // Stored data

  /** A value `JSON.parse` can produce (numbers are integers here). */
  datatype Json =
    | JNull
    | JBool(b: bool)
    | JNumber(n: int)
    | JString(s: string)
    | JArray(items: seq<Json>)
    | JObject(fields: map<string, Json>)

  /**
   * What storage holds under the progress key: text that does not parse,
   * or a parsed value together with the record the program reads it as
   * (the cast to PlayerProgress checks nothing beyond validateProgress).
   */
  datatype StoredItem = Unparsable | Parsed(value: Json, asRecord: PlayerProgress)

  /** What `typeof` reports. */
  datatype JsType = Undefined | Object | Boolean | Number | String

  /** `typeof` of a property that may be missing (None is undefined). */
  function TypeOf(v: Option<Json>): JsType {
    match v
    case None => Undefined
    case Some(JNull) => Object
    case Some(JBool(_)) => Boolean
    case Some(JNumber(_)) => Number
    case Some(JString(_)) => String
    case Some(JArray(_)) => Object
    case Some(JObject(_)) => Object
  }

  /** Reading property `name` of an object or array; missing properties are undefined. */
  function Property(v: Json, name: string): Option<Json> {
    match v
    case JObject(fields) => if name in fields then Some(fields[name]) else None
    case _ => None
  }

  /** JavaScript truthiness of a parsed value. */
  predicate Truthy(v: Json) {
    match v
    case JNull => false
    case JBool(b) => b
    case JNumber(n) => n != 0
    case JString(s) => s != ""
    case _ => true
  }

  /** Values `typeof` calls "object". */
  predicate ObjectTyped(v: Json) {
    v.JNull? || v.JArray? || v.JObject?
  }

  /**
   * validateProgress: None when it throws, which it does for a `metadata`
   * that is null (its `totalPuzzlesSolved` cannot be read).
   */
  function ValidateProgress(progress: Json): (r: Option<bool>)
    ensures r == Some(true) <==>
      && progress.JObject?
      && "version" in progress.fields && progress.fields["version"].JString?
      && "levels" in progress.fields && ObjectTyped(progress.fields["levels"])
      && "metadata" in progress.fields && progress.fields["metadata"].JObject?
      && "totalPuzzlesSolved" in progress.fields["metadata"].fields
      && progress.fields["metadata"].fields["totalPuzzlesSolved"].JNumber?
    ensures r == None <==>
      && progress.JObject?
      && "version" in progress.fields && progress.fields["version"].JString?
      && "levels" in progress.fields && ObjectTyped(progress.fields["levels"])
      && "metadata" in progress.fields && progress.fields["metadata"] == JNull
  {
    if !Truthy(progress) || TypeOf(Some(progress)) != Object then Some(false)
    else if TypeOf(Property(progress, "version")) != String then Some(false)
    else if TypeOf(Property(progress, "levels")) != Object then Some(false)
    else if TypeOf(Property(progress, "metadata")) != Object then Some(false)
    else
      var metadata := Property(progress, "metadata").value;
      if metadata == JNull then None
      else Some(TypeOf(Property(metadata, "totalPuzzlesSolved")) == Number)
  }

  function MetadataJson(m: Metadata): Json {
    var base := map[
      "totalPuzzlesSolved" := JNumber(m.totalPuzzlesSolved),
      "createdTimestamp" := JNumber(m.createdTimestamp),
      "lastModified" := JNumber(m.lastModified)];
    JObject(if m.lastPlayedPuzzleId.Some? then base["lastPlayedPuzzleId" := JString(m.lastPlayedPuzzleId.value)] else base)
  }

  /**
   * The parsed form of a saved record, as far as it is modelled: its
   * version, one object per level and its metadata.
   */
  function ProgressJson(p: PlayerProgress): Json {
    JObject(map[
      "version" := JString(p.version),
      "levels" := JObject(map id | id in p.levels :: JObject(map["puzzleId" := JString(p.levels[id].puzzleId)])),
      "metadata" := MetadataJson(p.metadata)])
  }

  /** What saveProgress writes. */
  function Item(p: PlayerProgress): StoredItem {
    Parsed(ProgressJson(p), p)
  }

  /** A record the program wrote itself always passes validation. */
  lemma SavedProgressValidates(p: PlayerProgress)
    ensures ValidateProgress(ProgressJson(p)) == Some(true)
  {
  }

  // ---------------------------------------------------------------------
  // The operations on the progress record

  /** createEmptyProgress. */
  function CreateEmptyProgress(now: int): (p: PlayerProgress)
    ensures p.levels == map[] && p.metadata.totalPuzzlesSolved == 0
    ensures p.version == CurrentVersion && p.metadata.lastPlayedPuzzleId.None?
    ensures p.metadata.createdTimestamp == now && p.metadata.lastModified == now
  {
    PlayerProgress(CurrentVersion, map[], Metadata(0, None, now, now))
  }

  /** The in-memory effect of saveProgress: the record's modification time. */
  function Stamp(p: PlayerProgress, now: int): PlayerProgress {
    p.(metadata := p.metadata.(lastModified := now))
  }

  /** What loadProgress leaves in memory, given what storage holds. */
  function LoadedProgress(stored: Option<StoredItem>, now: int): PlayerProgress {
    match stored
    case Some(Parsed(value, asRecord)) =>
      if ValidateProgress(value) == Some(true) then asRecord else Stamp(CreateEmptyProgress(now), now)
    case _ => Stamp(CreateEmptyProgress(now), now)
  }

  /** Whether loadProgress keeps what storage holds (rather than writing fresh progress). */
  predicate KeepsStored(stored: Option<StoredItem>) {
    stored.Some? && stored.value.Parsed? && ValidateProgress(stored.value.value) == Some(true)
  }

  /** Reloading what was saved gives back the same record. */
  lemma LoadSaved(p: PlayerProgress, now: int)
    ensures KeepsStored(Some(Item(p)))
    ensures LoadedProgress(Some(Item(p)), now) == p
  {
    SavedProgressValidates(p);
  }

  /** Stored data that fails validation, or does not parse, is replaced by fresh progress. */
  lemma LoadInvalid(stored: Option<StoredItem>, now: int)
    requires !KeepsStored(stored)
    ensures LoadedProgress(stored, now).levels == map[]
    ensures LoadedProgress(stored, now).metadata.totalPuzzlesSolved == 0
  {
  }

  /** The record a level starts with. */
  function NewLevel(puzzleId: string, puzzleNumber: int, now: int): LevelPersistence {
    LevelPersistence(puzzleId, puzzleNumber, WinStatus(false, None, None), None, PuzzleStats(None, None, None), now)
  }

  /** The level record for `puzzleId`, created unwon if it is missing. */
  function EnsureLevel(p: PlayerProgress, puzzleId: string, puzzleNumber: int, now: int): (q: PlayerProgress)
    ensures puzzleId in q.levels
    ensures q.levels.Keys == p.levels.Keys + {puzzleId}
    ensures puzzleId in p.levels ==> q == p
    ensures puzzleId !in p.levels ==> q.levels == p.levels[puzzleId := NewLevel(puzzleId, puzzleNumber, now)]
    ensures q.version == p.version && q.metadata == p.metadata
  {
    if puzzleId in p.levels then p
    else p.(levels := p.levels[puzzleId := NewLevel(puzzleId, puzzleNumber, now)])
  }

  /** saveGameState. */
  function AfterSaveGameState(p: PlayerProgress, puzzleId: string, puzzleNumber: int, gameState: PersistableGameState, now: int): PlayerProgress {
    var q := EnsureLevel(p, puzzleId, puzzleNumber, now);
    var level := q.levels[puzzleId];
    Stamp(q.(
      levels := q.levels[puzzleId := level.(gameState := Some(gameState), lastModified := now)],
      metadata := q.metadata.(lastPlayedPuzzleId := Some(puzzleId))), now)
  }

  /** `completionTimestamp || Date.now()`: a missing or zero time is replaced by now. */
  function FirstCompletion(completionTimestamp: Option<int>, now: int): int {
    if completionTimestamp.Some? && completionTimestamp.value != 0 then completionTimestamp.value else now
  }

  /** recordWin. */
  function AfterRecordWin(p: PlayerProgress, puzzleId: string, puzzleNumber: int, winningSolution: seq<Position>, now: int): PlayerProgress {
    var q := EnsureLevel(p, puzzleId, puzzleNumber, now);
    var level := q.levels[puzzleId];
    var isFirstWin := !level.winStatus.hasWon;
    var won := level.(
      winStatus := WinStatus(true, Some(winningSolution), Some(FirstCompletion(level.winStatus.completionTimestamp, now))),
      gameState := None,
      lastModified := now);
    var solved := q.metadata.totalPuzzlesSolved + (if isFirstWin then 1 else 0);
    Stamp(q.(levels := q.levels[puzzleId := won], metadata := q.metadata.(totalPuzzlesSolved := solved)), now)
  }

  /** clearGameState. */
  function AfterClearGameState(p: PlayerProgress, puzzleId: string, now: int): PlayerProgress {
    if puzzleId !in p.levels then p
    else
      var level := p.levels[puzzleId];
      Stamp(p.(levels := p.levels[puzzleId := level.(gameState := None, lastModified := now)]), now)
  }

  /** updateCurrentLevel. */
  function AfterUpdateCurrentLevel(p: PlayerProgress, puzzleId: string, puzzleNumber: int, now: int): PlayerProgress {
    var q := EnsureLevel(p, puzzleId, puzzleNumber, now);
    var level := q.levels[puzzleId];
    Stamp(q.(
      levels := q.levels[puzzleId := level.(lastModified := now)],
      metadata := q.metadata.(lastPlayedPuzzleId := Some(puzzleId))), now)
  }

  /** One property of a `Partial<PuzzleStats>`: absent, or present (possibly as undefined). */
  datatype StatPatch = Keep | Put(value: Option<int>)

  datatype StatsPatch = StatsPatch(numDeadEnds: StatPatch, bestNumPlacements: StatPatch, totalAttempts: StatPatch)

  function MergeStat(current: Option<int>, patch: StatPatch): Option<int> {
    match patch
    case Keep => current
    case Put(v) => v
  }

  /** `{...stats, ...patch}`: properties the patch has win, the others stay. */
  function MergeStats(stats: PuzzleStats, patch: StatsPatch): (r: PuzzleStats)
    ensures patch.numDeadEnds.Keep? ==> r.numDeadEnds == stats.numDeadEnds
    ensures patch.numDeadEnds.Put? ==> r.numDeadEnds == patch.numDeadEnds.value
    ensures patch.bestNumPlacements.Keep? ==> r.bestNumPlacements == stats.bestNumPlacements
    ensures patch.bestNumPlacements.Put? ==> r.bestNumPlacements == patch.bestNumPlacements.value
    ensures patch.totalAttempts.Keep? ==> r.totalAttempts == stats.totalAttempts
    ensures patch.totalAttempts.Put? ==> r.totalAttempts == patch.totalAttempts.value
  {
    PuzzleStats(
      MergeStat(stats.numDeadEnds, patch.numDeadEnds),
      MergeStat(stats.bestNumPlacements, patch.bestNumPlacements),
      MergeStat(stats.totalAttempts, patch.totalAttempts))
  }

  /** updateStats. */
  function AfterUpdateStats(p: PlayerProgress, puzzleId: string, patch: StatsPatch, now: int): PlayerProgress {
    if puzzleId !in p.levels then p
    else
      var level := p.levels[puzzleId];
      Stamp(p.(levels := p.levels[puzzleId := level.(stats := MergeStats(level.stats, patch), lastModified := now)]), now)
  }

  /** loadGameState: the stored game of a level, turned back into sets, or none (null). */
  function LoadedGame(p: PlayerProgress, puzzleId: string): (r: Option<RestoredGameState>)
    ensures r.Some? <==> puzzleId in p.levels && p.levels[puzzleId].gameState.Some?
    ensures r.Some? ==> r.value == DeserializeGameState(p.levels[puzzleId].gameState.value)
  {
    if puzzleId in p.levels && p.levels[puzzleId].gameState.Some? then
      Some(DeserializeGameState(p.levels[puzzleId].gameState.value))
    else None
  }

  datatype PlayerStats = PlayerStats(totalSolved: int, totalAttempted: nat, lastPlayedPuzzleId: Option<string>)

  /** getPlayerStats: every level with a record counts as attempted. */
  function PlayerStatsOf(p: PlayerProgress): (r: PlayerStats)
    ensures r.totalAttempted == |p.levels.Keys|
    ensures r.totalSolved == p.metadata.totalPuzzlesSolved
    ensures r.lastPlayedPuzzleId == p.metadata.lastPlayedPuzzleId
  {
    PlayerStats(p.metadata.totalPuzzlesSolved, |p.levels.Keys|, p.metadata.lastPlayedPuzzleId)
  }

  /** getWinningSolution: the solution stored with a level, or none (null); an array is truthy even when empty. */
  function WinningSolutionOf(p: PlayerProgress, puzzleId: string): Option<seq<Position>> {
    if puzzleId in p.levels then p.levels[puzzleId].winStatus.winningSolution else None
  }

  /** getLastPlayedPuzzleId: `lastPlayedPuzzleId || null`, so an empty id reads as none. */
  function LastPlayedOf(p: PlayerProgress): (r: Option<string>)
    ensures r.Some? ==> r.value != "" && p.metadata.lastPlayedPuzzleId == r
    ensures r.None? <==> p.metadata.lastPlayedPuzzleId.None? || p.metadata.lastPlayedPuzzleId.value == ""
  {
    match p.metadata.lastPlayedPuzzleId
    case Some(id) => if id != "" then Some(id) else None
    case None => None
  }

  // ---------------------------------------------------------------------
  // Properties of the operations

  /** The ids of the levels the player has won. */
  function SolvedIds(levels: map<string, LevelPersistence>): set<string> {
    set id | id in levels && levels[id].winStatus.hasWon
  }

  /** The solved count matches the won records, as it does for progress this program built. */
  predicate Consistent(p: PlayerProgress) {
    p.metadata.totalPuzzlesSolved == |SolvedIds(p.levels)|
  }

  lemma EmptyProgressConsistent(now: int)
    ensures Consistent(CreateEmptyProgress(now))
  {
    assert SolvedIds(map[]) == {};
  }

  /** Replacing a record without changing whether it is won keeps the won ids. */
  lemma SolvedIdsUpdate(levels: map<string, LevelPersistence>, id: string, level: LevelPersistence)
    requires id in levels ==> levels[id].winStatus.hasWon == level.winStatus.hasWon
    requires id !in levels ==> !level.winStatus.hasWon
    ensures SolvedIds(levels[id := level]) == SolvedIds(levels)
  {
  }

  /** Marking a record won adds its id to the won ids. */
  lemma SolvedIdsWin(levels: map<string, LevelPersistence>, id: string, level: LevelPersistence)
    requires level.winStatus.hasWon
    ensures SolvedIds(levels[id := level]) == SolvedIds(levels) + {id}
  {
  }

  lemma EnsureLevelSolved(p: PlayerProgress, puzzleId: string, puzzleNumber: int, now: int)
    ensures SolvedIds(EnsureLevel(p, puzzleId, puzzleNumber, now).levels) == SolvedIds(p.levels)
  {
    if puzzleId !in p.levels {
      SolvedIdsUpdate(p.levels, puzzleId, NewLevel(puzzleId, puzzleNumber, now));
    }
  }

  /**
   * saveGameState creates an unwon record when there is none, stores the
   * game and the last played id, and leaves the win record alone.
   */
  lemma SaveGameStateEffect(p: PlayerProgress, puzzleId: string, puzzleNumber: int, gameState: PersistableGameState, now: int)
    ensures var q := AfterSaveGameState(p, puzzleId, puzzleNumber, gameState, now);
      && puzzleId in q.levels
      && q.levels[puzzleId].gameState == Some(gameState)
      && q.metadata.lastPlayedPuzzleId == Some(puzzleId)
      && (puzzleId in p.levels ==> q.levels[puzzleId].winStatus == p.levels[puzzleId].winStatus)
      && (puzzleId !in p.levels ==> !q.levels[puzzleId].winStatus.hasWon)
      && q.levels.Keys == p.levels.Keys + {puzzleId}
      && (forall id | id in p.levels && id != puzzleId :: q.levels[id] == p.levels[id])
      && q.metadata.totalPuzzlesSolved == p.metadata.totalPuzzlesSolved
  {
  }

  /** What the stored game becomes is what loadGameState gives back. */
  lemma LoadAfterSave(p: PlayerProgress, puzzleId: string, puzzleNumber: int, now: int,
                      size: int, neighbors: seq<Key>, deadEndData: seq<DeadEndMarker>, moveHistory: seq<Position>)
    requires JsSets.NoDup(neighbors) && ChainsAreSets(deadEndData)
    ensures var gameState := SerializeGameState(size, neighbors, deadEndData, moveHistory);
      LoadedGame(AfterSaveGameState(p, puzzleId, puzzleNumber, gameState, now), puzzleId)
        == Some(RestoredGameState(size, neighbors, deadEndData, moveHistory))
  {
    DeserializeSerialize(size, neighbors, deadEndData, moveHistory);
  }

  /**
   * recordWin marks the level won with the solution, drops its game, keeps
   * an earlier (non-zero) completion time, and counts only a first win.
   */
  lemma RecordWinEffect(p: PlayerProgress, puzzleId: string, puzzleNumber: int, winningSolution: seq<Position>, now: int)
    ensures var q := AfterRecordWin(p, puzzleId, puzzleNumber, winningSolution, now);
      var firstWin := puzzleId !in p.levels || !p.levels[puzzleId].winStatus.hasWon;
      && puzzleId in q.levels
      && q.levels[puzzleId].winStatus.hasWon
      && q.levels[puzzleId].winStatus.winningSolution == Some(winningSolution)
      && q.levels[puzzleId].gameState.None?
      && (puzzleId in p.levels && p.levels[puzzleId].winStatus.completionTimestamp.Some?
          && p.levels[puzzleId].winStatus.completionTimestamp.value != 0
          ==> q.levels[puzzleId].winStatus.completionTimestamp == p.levels[puzzleId].winStatus.completionTimestamp)
      && q.metadata.totalPuzzlesSolved == p.metadata.totalPuzzlesSolved + (if firstWin then 1 else 0)
      && (forall id | id in p.levels && id != puzzleId :: q.levels[id] == p.levels[id])
  {
  }

  /**
   * After recordWin the level's solution is the one just recorded; clearing
   * the level's game afterwards keeps every stored solution.
   */
  lemma WinningSolutionRecorded(p: PlayerProgress, puzzleId: string, puzzleNumber: int, solution: seq<Position>, now: int, later: int)
    ensures var q := AfterRecordWin(p, puzzleId, puzzleNumber, solution, now);
      && WinningSolutionOf(q, puzzleId) == Some(solution)
      && forall id :: WinningSolutionOf(AfterClearGameState(q, puzzleId, later), id) == WinningSolutionOf(q, id)
  {
    var q := AfterRecordWin(p, puzzleId, puzzleNumber, solution, now);
    RecordWinEffect(p, puzzleId, puzzleNumber, solution, now);
    ClearGameStateEffect(q, puzzleId, later);
  }

  /**
   * Visiting a level (updateCurrentLevel) or saving its game makes it the
   * last played one, except that an empty id reads back as none.
   */
  lemma LastPlayedAfterVisit(p: PlayerProgress, puzzleId: string, puzzleNumber: int, gameState: PersistableGameState, now: int)
    ensures LastPlayedOf(AfterUpdateCurrentLevel(p, puzzleId, puzzleNumber, now)) == (if puzzleId == "" then None else Some(puzzleId))
    ensures LastPlayedOf(AfterSaveGameState(p, puzzleId, puzzleNumber, gameState, now)) == (if puzzleId == "" then None else Some(puzzleId))
  {
  }

  /** A second win of the same puzzle counts nothing more. */
  lemma RecordWinTwice(p: PlayerProgress, puzzleId: string, puzzleNumber: int, first: seq<Position>, second: seq<Position>, now1: int, now2: int)
    ensures var once := AfterRecordWin(p, puzzleId, puzzleNumber, first, now1);
      var twice := AfterRecordWin(once, puzzleId, puzzleNumber, second, now2);
      && twice.metadata.totalPuzzlesSolved == once.metadata.totalPuzzlesSolved
      && twice.levels[puzzleId].winStatus.completionTimestamp
         == (if once.levels[puzzleId].winStatus.completionTimestamp.value != 0
             then once.levels[puzzleId].winStatus.completionTimestamp else Some(now2))
  {
    RecordWinEffect(p, puzzleId, puzzleNumber, first, now1);
  }

  /** clearGameState drops the level's game and keeps its win; an unknown id changes nothing. */
  lemma ClearGameStateEffect(p: PlayerProgress, puzzleId: string, now: int)
    ensures puzzleId !in p.levels ==> AfterClearGameState(p, puzzleId, now) == p
    ensures var q := AfterClearGameState(p, puzzleId, now);
      puzzleId in p.levels ==>
        && q.levels.Keys == p.levels.Keys
        && q.levels[puzzleId].gameState.None?
        && q.levels[puzzleId].winStatus == p.levels[puzzleId].winStatus
        && q.levels[puzzleId].stats == p.levels[puzzleId].stats
        && q.metadata.totalPuzzlesSolved == p.metadata.totalPuzzlesSolved
  {
  }

  /** updateStats merges into an existing record's statistics; an unknown id changes nothing. */
  lemma UpdateStatsEffect(p: PlayerProgress, puzzleId: string, patch: StatsPatch, now: int)
    ensures puzzleId !in p.levels ==> AfterUpdateStats(p, puzzleId, patch, now) == p
    ensures var q := AfterUpdateStats(p, puzzleId, patch, now);
      puzzleId in p.levels ==>
        && q.levels.Keys == p.levels.Keys
        && q.levels[puzzleId].stats == MergeStats(p.levels[puzzleId].stats, patch)
        && q.levels[puzzleId].winStatus == p.levels[puzzleId].winStatus
        && q.levels[puzzleId].gameState == p.levels[puzzleId].gameState
  {
  }

  /** Every operation keeps the solved count equal to the number of won records. */
  lemma {:induction false} OperationsKeepConsistent(p: PlayerProgress, puzzleId: string, puzzleNumber: int,
      gameState: PersistableGameState, solution: seq<Position>, patch: StatsPatch, now: int)
    requires Consistent(p)
    ensures Consistent(AfterSaveGameState(p, puzzleId, puzzleNumber, gameState, now))
    ensures Consistent(AfterRecordWin(p, puzzleId, puzzleNumber, solution, now))
    ensures Consistent(AfterClearGameState(p, puzzleId, now))
    ensures Consistent(AfterUpdateCurrentLevel(p, puzzleId, puzzleNumber, now))
    ensures Consistent(AfterUpdateStats(p, puzzleId, patch, now))
  {
    EnsureLevelSolved(p, puzzleId, puzzleNumber, now);
    var q := EnsureLevel(p, puzzleId, puzzleNumber, now);
    var level := q.levels[puzzleId];
    SolvedIdsUpdate(q.levels, puzzleId, level.(gameState := Some(gameState), lastModified := now));
    SolvedIdsUpdate(q.levels, puzzleId, level.(lastModified := now));
    var won := level.(
      winStatus := WinStatus(true, Some(solution), Some(FirstCompletion(level.winStatus.completionTimestamp, now))),
      gameState := None,
      lastModified := now);
    SolvedIdsWin(q.levels, puzzleId, won);
    if !level.winStatus.hasWon {
      assert puzzleId !in SolvedIds(q.levels);
    } else {
      assert SolvedIds(q.levels) + {puzzleId} == SolvedIds(q.levels);
    }
    if puzzleId in p.levels {
      var existing := p.levels[puzzleId];
      SolvedIdsUpdate(p.levels, puzzleId, existing.(gameState := None, lastModified := now));
      SolvedIdsUpdate(p.levels, puzzleId, existing.(stats := MergeStats(existing.stats, patch), lastModified := now));
    }
  }

  // ---------------------------------------------------------------------
  // The manager

  /** PersistenceManager: the progress in memory and what storage holds. */
  class PersistenceManager {
    var progress: PlayerProgress
    var stored: Option<StoredItem>

    /** The constructor's loadProgress: keep valid stored progress, else start fresh and save. */
    constructor(storedItem: Option<StoredItem>, now: int)
      ensures progress == LoadedProgress(storedItem, now)
      ensures stored == if KeepsStored(storedItem) then storedItem else Some(Item(progress))
    {
      var empty := Stamp(CreateEmptyProgress(now), now);
      if storedItem.None? {
        progress, stored := empty, Some(Item(empty));
      } else if storedItem.value.Unparsable? {
        progress, stored := empty, Some(Item(empty));
      } else {
        var valid := ValidateProgress(storedItem.value.value);
        if valid == Some(true) {
          progress, stored := storedItem.value.asRecord, storedItem;
        } else {
          progress, stored := empty, Some(Item(empty));
        }
      }
    }

    /** saveProgress. */
    method SaveProgress(now: int)
      modifies this
      ensures progress == Stamp(old(progress), now)
      ensures stored == Some(Item(progress))
    {
      progress := progress.(metadata := progress.metadata.(lastModified := now));
      stored := Some(Item(progress));
    }

    method SaveGameState(puzzleId: string, puzzleNumber: int, size: int, neighbors: seq<Key>,
                         deadEndData: seq<DeadEndMarker>, moveHistory: seq<Position>, now: int)
      modifies this
      ensures progress == AfterSaveGameState(old(progress), puzzleId, puzzleNumber,
                            SerializeGameState(size, neighbors, deadEndData, moveHistory), now)
      ensures stored == Some(Item(progress))
    {
      var gameState := SerializeGameState(size, neighbors, deadEndData, moveHistory);
      if puzzleId !in progress.levels {
        progress := progress.(levels := progress.levels[puzzleId := NewLevel(puzzleId, puzzleNumber, now)]);
      }
      var level := progress.levels[puzzleId];
      progress := progress.(levels := progress.levels[puzzleId := level.(gameState := Some(gameState), lastModified := now)]);
      progress := progress.(metadata := progress.metadata.(lastPlayedPuzzleId := Some(puzzleId)));
      SaveProgress(now);
    }

    /** loadGameState. */
    function LoadGameState(puzzleId: string): (r: Option<RestoredGameState>)
      reads this
      ensures r.Some? ==> NoDupNeighbors(r.value)
      ensures r.Some? <==> puzzleId in progress.levels && progress.levels[puzzleId].gameState.Some?
    {
      LoadedGame(progress, puzzleId)
    }

    method RecordWin(puzzleId: string, puzzleNumber: int, winningSolution: seq<Position>, now: int)
      modifies this
      ensures progress == AfterRecordWin(old(progress), puzzleId, puzzleNumber, winningSolution, now)
      ensures stored == Some(Item(progress))
    {
      if puzzleId !in progress.levels {
        progress := progress.(levels := progress.levels[puzzleId := NewLevel(puzzleId, puzzleNumber, now)]);
      }
      var levelData := progress.levels[puzzleId];
      var isFirstWin := !levelData.winStatus.hasWon;
      levelData := levelData.(winStatus := WinStatus(
        true, Some(winningSolution), Some(FirstCompletion(levelData.winStatus.completionTimestamp, now))));
      levelData := levelData.(gameState := None, lastModified := now);
      progress := progress.(levels := progress.levels[puzzleId := levelData]);
      if isFirstWin {
        progress := progress.(metadata := progress.metadata.(totalPuzzlesSolved := progress.metadata.totalPuzzlesSolved + 1));
      }
      SaveProgress(now);
    }

    method ClearGameState(puzzleId: string, now: int)
      modifies this
      ensures progress == AfterClearGameState(old(progress), puzzleId, now)
      ensures puzzleId !in old(progress).levels ==> stored == old(stored)
      ensures puzzleId in old(progress).levels ==> stored == Some(Item(progress))
    {
      if puzzleId !in progress.levels {
        return;
      }
      var level := progress.levels[puzzleId];
      progress := progress.(levels := progress.levels[puzzleId := level.(gameState := None, lastModified := now)]);
      SaveProgress(now);
    }

    /** hasCompletedPuzzle. */
    function HasCompletedPuzzle(puzzleId: string): (r: bool)
      reads this
      ensures r <==> puzzleId in SolvedIds(progress.levels)
    {
      puzzleId in progress.levels && progress.levels[puzzleId].winStatus.hasWon
    }

    /** hasActiveGameState. */
    function HasActiveGameState(puzzleId: string): (r: bool)
      reads this
      ensures r <==> LoadGameState(puzzleId).Some?
    {
      puzzleId in progress.levels && progress.levels[puzzleId].gameState.Some?
    }

    /** getPlayerStats. */
    function GetPlayerStats(): (r: PlayerStats)
      reads this
      ensures r.totalAttempted == |progress.levels.Keys|
      ensures Consistent(progress) ==> r.totalSolved == |SolvedIds(progress.levels)|
    {
      PlayerStatsOf(progress)
    }

    /** getWinningSolution. */
    function GetWinningSolution(puzzleId: string): (r: Option<seq<Position>>)
      reads this
      ensures r.Some? ==> puzzleId in progress.levels && progress.levels[puzzleId].winStatus.winningSolution == r
      ensures r.None? <==> puzzleId !in progress.levels || progress.levels[puzzleId].winStatus.winningSolution.None?
    {
      WinningSolutionOf(progress, puzzleId)
    }

    /** getLastPlayedPuzzleId. */
    function GetLastPlayedPuzzleId(): (r: Option<string>)
      reads this
      ensures r.Some? ==> r.value != "" && r == progress.metadata.lastPlayedPuzzleId
      ensures r.None? ==> progress.metadata.lastPlayedPuzzleId.None? || progress.metadata.lastPlayedPuzzleId.value == ""
    {
      LastPlayedOf(progress)
    }

    method UpdateCurrentLevel(puzzleId: string, puzzleNumber: int, now: int)
      modifies this
      ensures progress == AfterUpdateCurrentLevel(old(progress), puzzleId, puzzleNumber, now)
      ensures stored == Some(Item(progress))
    {
      if puzzleId !in progress.levels {
        progress := progress.(levels := progress.levels[puzzleId := NewLevel(puzzleId, puzzleNumber, now)]);
      }
      progress := progress.(metadata := progress.metadata.(lastPlayedPuzzleId := Some(puzzleId)));
      var level := progress.levels[puzzleId];
      progress := progress.(levels := progress.levels[puzzleId := level.(lastModified := now)]);
      SaveProgress(now);
    }

    method UpdateStats(puzzleId: string, patch: StatsPatch, now: int)
      modifies this
      ensures progress == AfterUpdateStats(old(progress), puzzleId, patch, now)
      ensures puzzleId !in old(progress).levels ==> stored == old(stored)
      ensures puzzleId in old(progress).levels ==> stored == Some(Item(progress))
    {
      if puzzleId !in progress.levels {
        return;
      }
      var level := progress.levels[puzzleId];
      progress := progress.(levels := progress.levels[puzzleId := level.(stats := MergeStats(level.stats, patch))]);
      level := progress.levels[puzzleId];
      progress := progress.(levels := progress.levels[puzzleId := level.(lastModified := now)]);
      SaveProgress(now);
    }

    method ClearAllProgress(now: int)
      modifies this
      ensures progress == Stamp(CreateEmptyProgress(now), now)
      ensures stored == Some(Item(progress))
    {
      progress := CreateEmptyProgress(now);
      SaveProgress(now);
    }
  }

  /** Every neighbour set handed back is a well-formed set. */
  predicate NoDupNeighbors(r: RestoredGameState) {
    JsSets.NoDup(r.neighbors)
  }
}
