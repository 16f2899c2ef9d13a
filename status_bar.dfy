// The texts of the status bar (src/game/ui/StatusBar.ts): the counter of
// neighbours still to place and the level label.  The bar's elements are
// replaced by the texts written into them; colours and visibility are
// not modelled.
module StatusDisplay {
  import opened Wrappers
  import opened JsText
  import opened Puzzle

  datatype CounterStyle = NumberOnly | WithLabel | WithIcon

  datatype LevelStyle = IdOnly | Friendly | Compact

  /**
   * The bar's configuration.  A style is None once a partial update has
   * set it to undefined.
   */
  datatype StatusBarConfig = StatusBarConfig(
    counterStyle: Option<CounterStyle>,
    levelStyle: Option<LevelStyle>,
    backgroundColor: Option<string>,
    borderColor: Option<string>,
    textColor: Option<string>)

  /** One property of a `Partial<StatusBarConfig>`: absent, or present (possibly as undefined). */
  datatype Patch<T> = Keep | Put(value: Option<T>)

  datatype ConfigPatch = ConfigPatch(
    counterStyle: Patch<CounterStyle>,
    levelStyle: Patch<LevelStyle>,
    backgroundColor: Patch<string>,
    borderColor: Patch<string>,
    textColor: Patch<string>)

  /**
   * A puzzle shown by the bar.  The label reads `puzzle.metadata?.index`,
   * which the declared PuzzleConfig does not have: it is `metadataIndex`
   * here, None when it is absent.
   */
  datatype ShownPuzzle = ShownPuzzle(config: PuzzleConfig, metadataIndex: Option<int>)

  const DefaultConfig: StatusBarConfig := StatusBarConfig(Some(WithLabel), Some(Friendly), None, None, None)

  /** calculateRemainingNeighbors: `2·size` minus the neighbours already placed, not clamped at zero. */
  function CalculateRemainingNeighbors(puzzle: PuzzleConfig, playerPlacedCount: int): (r: int)
    ensures r + |puzzle.prePlacedNeighbors| + playerPlacedCount == 2 * puzzle.size
    ensures r < 0 <==> |puzzle.prePlacedNeighbors| + playerPlacedCount > 2 * puzzle.size
  {
    var totalNeeded := puzzle.size * 2;
    var prePlacedCount := |puzzle.prePlacedNeighbors|;
    totalNeeded - prePlacedCount - playerPlacedCount
  }

  function Noun(n: int): string {
    if n == 1 then "neighbor" else "neighbors"
  }

  /** The counter text of updateCounter; an unset style falls back to the label. */
  function CounterText(style: Option<CounterStyle>, remainingCount: int): string {
    match style
    case Some(NumberOnly) => IntToString(remainingCount)
    case Some(WithIcon) => "\U{1F465} " + IntToString(remainingCount)
    case _ => IntToString(remainingCount) + " " + Noun(remainingCount) + " left"
  }

  /** The labelled counter reads back as the count, and says "neighbor" exactly for one. */
  lemma CounterLabel(n: int)
    ensures var text := CounterText(Some(WithLabel), n);
      && ParseInt(text) == Int(n)
      && (text == IntToString(n) + " neighbor left" <==> n == 1)
      && CounterText(None, n) == text
  {
    LabelReadsBack(n);
    LabelSingular(n);
  }

  lemma LabelReadsBack(n: int)
    ensures ParseInt(CounterText(Some(WithLabel), n)) == Int(n)
  {
    Regroup(IntToString(n), " ", Noun(n), " left");
    ParseIntIntToString(n, " " + Noun(n) + " left");
  }

  lemma LabelSingular(n: int)
    ensures CounterText(Some(WithLabel), n) == IntToString(n) + " neighbor left" <==> n == 1
  {
    if n == 1 {
      Regroup(IntToString(n), " ", "neighbor", " left");
      assert " " + "neighbor" + " left" == " neighbor left";
    } else {
      assert |CounterText(Some(WithLabel), n)| != |IntToString(n) + " neighbor left"|;
    }
  }

  lemma Regroup(a: string, b: string, c: string, d: string)
    ensures a + b + c + d == a + (b + c + d)
  {
  }

  /** The plain counter is the count's decimal form. */
  lemma CounterNumber(n: int)
    ensures ParseNumber(CounterText(Some(NumberOnly), n)) == Int(n)
  {
    ParseNumberIntToString(n);
  }

  /** The icon counter is the icon, a space, then the count. */
  lemma CounterIcon(n: int)
    ensures var text := CounterText(Some(WithIcon), n);
      && text[..2] == "\U{1F465} "
      && ParseNumber(text[2..]) == Int(n)
  {
    var text := CounterText(Some(WithIcon), n);
    assert text[2..] == IntToString(n);
    ParseNumberIntToString(n);
  }

  /** `index || 1`: a missing or zero index shows as 1. */
  function LevelIndex(index: Option<int>): (i: int)
    ensures i != 0
    ensures index.Some? && index.value != 0 ==> i == index.value
    ensures index.None? || index.value == 0 ==> i == 1
  {
    if index.Some? && index.value != 0 then index.value else 1
  }

  /** The level text of updateLevel; an unset style shows nothing. */
  function LevelText(style: Option<LevelStyle>, puzzle: ShownPuzzle): string {
    var index := LevelIndex(puzzle.metadataIndex);
    var size := IntToString(puzzle.config.size);
    match style
    case Some(IdOnly) => size + "x" + size + "-" + PadStart(IntToString(index), 3, '0')
    case Some(Friendly) => "Level " + IntToString(index)
    case Some(Compact) => "#" + IntToString(index)
    case None => ""
  }

  /** The friendly and compact labels read back as the level number. */
  lemma LevelLabels(puzzle: ShownPuzzle)
    ensures var friendly := LevelText(Some(Friendly), puzzle);
      friendly[..6] == "Level " && ParseNumber(friendly[6..]) == Int(LevelIndex(puzzle.metadataIndex))
    ensures var compact := LevelText(Some(Compact), puzzle);
      compact[..1] == "#" && ParseNumber(compact[1..]) == Int(LevelIndex(puzzle.metadataIndex))
  {
    var index := LevelIndex(puzzle.metadataIndex);
    assert LevelText(Some(Friendly), puzzle)[6..] == IntToString(index);
    assert LevelText(Some(Compact), puzzle)[1..] == IntToString(index);
    ParseNumberIntToString(index);
  }

  /**
   * The id label is `{size}x{size}-` and then at least three digits that
   * read back as the level number (for a positive index).
   */
  lemma LevelIdLabel(puzzle: ShownPuzzle)
    requires LevelIndex(puzzle.metadataIndex) > 0
    ensures var size := IntToString(puzzle.config.size);
      var text := LevelText(Some(IdOnly), puzzle);
      var prefix := size + "x" + size + "-";
      && prefix <= text
      && |text| >= |prefix| + 3
      && ParseInt(text[|prefix|..]) == Int(LevelIndex(puzzle.metadataIndex))
  {
    var index := LevelIndex(puzzle.metadataIndex);
    var size := IntToString(puzzle.config.size);
    var prefix := size + "x" + size + "-";
    var digits := PadStart(IntToString(index), 3, '0');
    assert LevelText(Some(IdOnly), puzzle) == prefix + digits;
    assert (prefix + digits)[|prefix|..] == digits;
    ParseIntPadded(index, 3);
    assert |digits| >= 3 by {
      if |IntToString(index)| < 3 {
        assert digits == Repeat('0', 3 - |IntToString(index)|) + IntToString(index);
      }
    }
  }

  function MergeField<T>(current: Option<T>, patch: Patch<T>): Option<T> {
    match patch
    case Keep => current
    case Put(v) => v
  }

  /** `{...config, ...patch}`: properties the patch has win, the others stay. */
  function MergeConfig(config: StatusBarConfig, patch: ConfigPatch): (r: StatusBarConfig)
    ensures patch.counterStyle.Keep? ==> r.counterStyle == config.counterStyle
    ensures patch.counterStyle.Put? ==> r.counterStyle == patch.counterStyle.value
    ensures patch.levelStyle.Keep? ==> r.levelStyle == config.levelStyle
    ensures patch.levelStyle.Put? ==> r.levelStyle == patch.levelStyle.value
    ensures patch.backgroundColor.Keep? ==> r.backgroundColor == config.backgroundColor
    ensures patch.backgroundColor.Put? ==> r.backgroundColor == patch.backgroundColor.value
    ensures patch.borderColor.Keep? ==> r.borderColor == config.borderColor
    ensures patch.borderColor.Put? ==> r.borderColor == patch.borderColor.value
    ensures patch.textColor.Keep? ==> r.textColor == config.textColor
    ensures patch.textColor.Put? ==> r.textColor == patch.textColor.value
  {
    StatusBarConfig(
      MergeField(config.counterStyle, patch.counterStyle),
      MergeField(config.levelStyle, patch.levelStyle),
      MergeField(config.backgroundColor, patch.backgroundColor),
      MergeField(config.borderColor, patch.borderColor),
      MergeField(config.textColor, patch.textColor))
  }

  /** Applying the same partial configuration twice changes nothing more. */
  lemma MergeConfigIdempotent(config: StatusBarConfig, patch: ConfigPatch)
    ensures MergeConfig(MergeConfig(config, patch), patch) == MergeConfig(config, patch)
  {
  }

  /** StatusBar: its configuration, the puzzle last shown, and the two texts on display. */
  class StatusBar {
    var config: StatusBarConfig
    var currentPuzzle: Option<ShownPuzzle>
    var counterText: string
    var levelText: string

    constructor()
      ensures config == DefaultConfig && currentPuzzle.None?
      ensures counterText == "" && levelText == ""
    {
      config := DefaultConfig;
      currentPuzzle := None;
      counterText, levelText := "", "";
    }

    /** updateCounter: the total is not used. */
    method UpdateCounter(remainingCount: int, totalNeeded: int)
      modifies this
      ensures counterText == CounterText(config.counterStyle, remainingCount)
      ensures config == old(config) && currentPuzzle == old(currentPuzzle) && levelText == old(levelText)
    {
      var displayText := "";
      match config.counterStyle {
        case Some(NumberOnly) =>
          displayText := IntToString(remainingCount);
        case Some(WithLabel) =>
          var noun := if remainingCount == 1 then "neighbor" else "neighbors";
          displayText := IntToString(remainingCount) + " " + noun + " left";
        case Some(WithIcon) =>
          displayText := "\U{1F465} " + IntToString(remainingCount);
        case None =>
          var defaultNoun := if remainingCount == 1 then "neighbor" else "neighbors";
          displayText := IntToString(remainingCount) + " " + defaultNoun + " left";
      }
      counterText := displayText;
    }

    method UpdateLevel(puzzle: ShownPuzzle)
      modifies this
      ensures currentPuzzle == Some(puzzle)
      ensures levelText == LevelText(config.levelStyle, puzzle)
      ensures config == old(config) && counterText == old(counterText)
    {
      currentPuzzle := Some(puzzle);
      var displayText := "";
      var index := LevelIndex(puzzle.metadataIndex);
      match config.levelStyle {
        case Some(IdOnly) =>
          var size := IntToString(puzzle.config.size);
          displayText := size + "x" + size + "-" + PadStart(IntToString(index), 3, '0');
        case Some(Friendly) =>
          displayText := "Level " + IntToString(index);
        case Some(Compact) =>
          displayText := "#" + IntToString(index);
        case None =>
      }
      levelText := displayText;
    }

    /** updateStyle: merge the partial configuration, then redraw the level label of a shown puzzle. */
    method UpdateStyle(patch: ConfigPatch)
      modifies this
      ensures config == MergeConfig(old(config), patch)
      ensures currentPuzzle == old(currentPuzzle) && counterText == old(counterText)
      ensures currentPuzzle.Some? ==> levelText == LevelText(config.levelStyle, currentPuzzle.value)
      ensures currentPuzzle.None? ==> levelText == old(levelText)
    {
      config := MergeConfig(config, patch);
      if currentPuzzle.Some? {
        UpdateLevel(currentPuzzle.value);
      }
    }
  }
}
