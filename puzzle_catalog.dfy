// The compressed puzzle catalogue (src/game/data/puzzleCatalog.ts).  Each
// entry is the puzzle number, one symmetry character, then the grid's
// columns separated by ';', where every character of a column is the row of
// a pre-placed neighbour in that column: '0'-'9' for rows 0-9, 'A'-'Z' for
// rows 10-35.  A thrown `Error` is a `Failure`.
module PuzzleCatalog {
  import opened Wrappers
  import opened JsText
  import opened Grid
  import opened Puzzle

  /** Why an entry could not be read (the two messages the parser throws). */
  datatype ParseError =
    | InvalidFormat(compressed: string)  // no symmetry character at all
    | InvalidCharacter(ch: char)         // a column character that names no row

  // ---------------------------------------------------------------------
  // Symmetry characters

  const SymmetryChars: string := "./-:xco+*"

  predicate IsSymmetryChar(c: char) {
    c in SymmetryChars
  }

  /** The character SYMMETRY_CLASS_MAP files each class under. */
  function SymbolOf(k: SymmetryClass): (c: char)
    ensures IsSymmetryChar(c)
  {
    match k
    case Iden => '.'
    case Dia1 => '/'
    case Ort1 => '-'
    case Rot2 => ':'
    case Dia2 => 'x'
    case Near => 'c'
    case Rot4 => 'o'
    case Ort2 => '+'
    case Full => '*'
  }

  /** SYMMETRY_CLASS_MAP: one class per symmetry character, and each class once. */
  function SymmetryClassOf(c: char): (k: SymmetryClass)
    requires IsSymmetryChar(c)
    ensures SymbolOf(k) == c
  {
    if c == '.' then Iden
    else if c == '/' then Dia1
    else if c == '-' then Ort1
    else if c == ':' then Rot2
    else if c == 'x' then Dia2
    else if c == 'c' then Near
    else if c == 'o' then Rot4
    else if c == '+' then Ort2
    else Full
  }

  /** Every class is the image of its own symbol, so the map is onto. */
  lemma SymmetryClassOfSymbol(k: SymmetryClass)
    ensures SymmetryClassOf(SymbolOf(k)) == k
  {
    var c := SymbolOf(k);
    assert SymbolOf(SymmetryClassOf(c)) == c;
  }

  /** The index of the first symmetry character of `s`, if there is one. */
  function SymmetryIndex(s: string): (r: Option<nat>)
    ensures r.Some? ==> r.value < |s| && IsSymmetryChar(s[r.value])
    ensures r.Some? ==> forall k | 0 <= k < r.value :: !IsSymmetryChar(s[k])
    ensures r.None? <==> forall k | 0 <= k < |s| :: !IsSymmetryChar(s[k])
  {
    if |s| == 0 then None
    else if IsSymmetryChar(s[0]) then Some(0)
    else match SymmetryIndex(s[1..])
      case None => None
      case Some(i) => Some(i + 1)
  }

  // ---------------------------------------------------------------------
  // Row characters

  /** The character that encodes row `row`. */
  function RowChar(row: nat): char
    requires row < 36
  {
    if row < 10 then DigitChar(row) else ('A' as int + row - 10) as char
  }

  /**
   * The row a column character stands for: `parseInt` of a digit, and
   * 10 onwards for 'A' to 'Z'; no row for any other character.
   */
  function RowOf(c: char): (r: Option<nat>)
    ensures r.Some? <==> IsDigit(c) || 'A' <= c <= 'Z'
    ensures r.Some? ==> r.value < 36 && RowChar(r.value) == c
    ensures r.Some? ==> (r.value < 10 <==> IsDigit(c))
  {
    if '0' <= c <= '9' then Some(DigitValue(c))
    else if 'A' <= c <= 'Z' then Some(c as int - 'A' as int + 10)
    else None
  }

  /** A digit's row is what `parseInt` reads from it. */
  lemma DigitRow(c: char)
    requires IsDigit(c)
    ensures ParseInt([c]) == Int(RowOf(c).value)
  {
    assert DigitPrefix([c]) == [c] by {
      assert [c][1..] == [];
    }
    assert DigitsValue([c]) == DigitValue(c) by {
      assert [c][..0] == [];
    }
  }

  /** Reading back the character of a row gives the row. */
  lemma RowCharRoundTrip(row: nat)
    requires row < 36
    ensures RowOf(RowChar(row)) == Some(row)
  {
    var c := RowChar(row);
    assert RowOf(c).Some?;
    assert RowChar(RowOf(c).value) == c;
  }

  // ---------------------------------------------------------------------
  // Columns

  /** Every character of every field names a row. */
  predicate AllRows(columns: seq<string>) {
    forall c, k | 0 <= c < |columns| && 0 <= k < |columns[c]| :: RowOf(columns[c][k]).Some?
  }

  /**
   * Character `k` of field `c` is the first one, in column-major order,
   * that names no row.
   */
  predicate FirstBad(columns: seq<string>, c: int, k: int) {
    && 0 <= c < |columns| && 0 <= k < |columns[c]|
    && RowOf(columns[c][k]).None?
    && (forall c', k' | 0 <= c' < c && 0 <= k' < |columns[c']| :: RowOf(columns[c'][k']).Some?)
    && (forall k' | 0 <= k' < k :: RowOf(columns[c][k']).Some?)
  }

  /** Positions lie in columns `0 .. n-1` and rows `0 .. 35`, columns in ascending order. */
  predicate ColumnMajor(ps: seq<Position>, n: int) {
    && (forall i | 0 <= i < |ps| :: 0 <= ps[i].col < n && 0 <= ps[i].row < 36)
    && (forall i, j | 0 <= i <= j < |ps| :: ps[i].col <= ps[j].col)
  }

  /** Where the positions of field `c` start: the characters of the fields before it. */
  function Offset(columns: seq<string>, c: int): nat
    requires 0 <= c <= |columns|
  {
    |Concat(columns[..c])|
  }

  /**
   * The positions one field encodes, all in column `col`, in the order of its
   * characters; the first character naming no row is the error.
   */
  function ColumnCells(str: string, col: int): (r: Result<seq<Position>, ParseError>)
    ensures r.Success? <==> forall k | 0 <= k < |str| :: RowOf(str[k]).Some?
    ensures r.Success? ==> |r.value| == |str|
    ensures r.Success? ==> forall k | 0 <= k < |str| :: r.value[k] == Position(RowOf(str[k]).value, col)
    ensures r.Failure? ==> exists k | 0 <= k < |str| ::
      && RowOf(str[k]).None? && r.error == InvalidCharacter(str[k])
      && forall k' | 0 <= k' < k :: RowOf(str[k']).Some?
  {
    if |str| == 0 then Success([])
    else
      var last := |str| - 1;
      match ColumnCells(str[..last], col)
      case Failure(e) => Failure(e)
      case Success(ps) =>
        match RowOf(str[last])
        case None => Failure(InvalidCharacter(str[last]))
        case Some(row) => Success(ps + [Position(row, col)])
  }

  /** The positions all fields encode, field `c` being column `c`. */
  function Cells(columns: seq<string>): Result<seq<Position>, ParseError> {
    if |columns| == 0 then Success([])
    else
      var last := |columns| - 1;
      match Cells(columns[..last])
      case Failure(e) => Failure(e)
      case Success(ps) =>
        match ColumnCells(columns[last], last)
        case Failure(e) => Failure(e)
        case Success(qs) => Success(ps + qs)
  }

  /** The fields decode exactly when every character in them names a row. */
  lemma {:induction false} CellsSucceed(columns: seq<string>)
    ensures Cells(columns).Success? <==> AllRows(columns)
  {
    if |columns| > 0 {
      var last := |columns| - 1;
      var init := columns[..last];
      CellsSucceed(init);
      assert forall c | 0 <= c < last :: init[c] == columns[c];
      if AllRows(columns) {
        assert AllRows(init) by {
          forall c, k | 0 <= c < |init| && 0 <= k < |init[c]|
            ensures RowOf(init[c][k]).Some?
          {
            assert init[c] == columns[c];
          }
        }
        assert forall k | 0 <= k < |columns[last]| :: RowOf(columns[last][k]).Some?;
      }
    }
  }

  /** A failure names the first bad character in column-major order. */
  lemma {:induction false} CellsFail(columns: seq<string>)
    requires Cells(columns).Failure?
    ensures exists c, k :: FirstBad(columns, c, k) && Cells(columns).error == InvalidCharacter(columns[c][k])
  {
    var last := |columns| - 1;
    var init := columns[..last];
    assert forall c | 0 <= c < last :: init[c] == columns[c];
    if Cells(init).Failure? {
      CellsFail(init);
      var c, k :| FirstBad(init, c, k) && Cells(init).error == InvalidCharacter(init[c][k]);
      assert FirstBad(columns, c, k);
    } else {
      CellsSucceed(init);
      var str := columns[last];
      var k :| 0 <= k < |str| && RowOf(str[k]).None? && ColumnCells(str, last).error == InvalidCharacter(str[k])
        && forall k' | 0 <= k' < k :: RowOf(str[k']).Some?;
      forall c', k' | 0 <= c' < last && 0 <= k' < |columns[c']|
        ensures RowOf(columns[c'][k']).Some?
      {
        assert init[c'] == columns[c'];
      }
      assert FirstBad(columns, last, k);
    }
  }

  /** On success: one position per character, in column-major order. */
  lemma {:induction false} CellsLayout(columns: seq<string>)
    requires Cells(columns).Success?
    ensures |Cells(columns).value| == |Concat(columns)|
    ensures ColumnMajor(Cells(columns).value, |columns|)
  {
    if |columns| > 0 {
      var last := |columns| - 1;
      var init := columns[..last];
      CellsLayout(init);
      var qs := ColumnCells(columns[last], last).value;
      assert columns == init + [columns[last]];
      ConcatSnoc(init, columns[last]);
      ColumnMajorAppend(Cells(init).value, qs, last);
    }
  }

  /** A field's positions, all in the next column, extend a column-major list. */
  lemma ColumnMajorAppend(ps: seq<Position>, qs: seq<Position>, last: nat)
    requires ColumnMajor(ps, last)
    requires forall i | 0 <= i < |qs| :: qs[i].col == last && 0 <= qs[i].row < 36
    ensures ColumnMajor(ps + qs, last + 1)
  {
    var all := ps + qs;
    forall i | 0 <= i < |all|
      ensures 0 <= all[i].col < last + 1 && 0 <= all[i].row < 36
    {
      if i >= |ps| {
        assert all[i] == qs[i - |ps|];
      } else {
        assert all[i] == ps[i];
      }
    }
    forall i, j | 0 <= i <= j < |all|
      ensures all[i].col <= all[j].col
    {
      if j >= |ps| {
        assert all[j] == qs[j - |ps|];
        if i >= |ps| {
          assert all[i] == qs[i - |ps|];
        } else {
          assert all[i] == ps[i];
        }
      } else {
        assert all[i] == ps[i] && all[j] == ps[j];
      }
    }
  }

  /**
   * On success, character `k` of field `c` names a row and becomes position
   * `Offset(columns, c) + k`, at that row and in column `c`.
   */
  lemma {:induction false} CellsPosition(columns: seq<string>, c: int, k: int)
    requires Cells(columns).Success?
    requires 0 <= c < |columns| && 0 <= k < |columns[c]|
    ensures RowOf(columns[c][k]).Some?
    ensures Offset(columns, c) + k < |Cells(columns).value|
    ensures Cells(columns).value[Offset(columns, c) + k] == Position(RowOf(columns[c][k]).value, c)
  {
    var last := |columns| - 1;
    var init := columns[..last];
    CellsSplit(columns);
    var ps := Cells(init).value;
    var qs := ColumnCells(columns[last], last).value;
    assert |ps| == |Concat(init)| by {
      CellsLayout(init);
    }
    if c < last {
      assert Offset(columns, c) == Offset(init, c) && init[c] == columns[c] by {
        TakeTake(columns, last, c);
      }
      CellsPosition(init, c, k);
      PrefixConcatLength(init, c);
      IndexAppend(ps, qs, Offset(columns, c) + k);
    } else {
      assert RowOf(columns[last][k]).Some? && qs[k] == Position(RowOf(columns[last][k]).value, last);
      IndexAppend(ps, qs, |ps| + k);
    }
  }

  /** A successful decoding is the decoding of the first fields, then of the last. */
  lemma CellsSplit(columns: seq<string>)
    requires |columns| > 0 && Cells(columns).Success?
    ensures var last := |columns| - 1;
      && Cells(columns[..last]).Success? && ColumnCells(columns[last], last).Success?
      && Cells(columns).value == Cells(columns[..last]).value + ColumnCells(columns[last], last).value
  {
  }

  lemma TakeTake<T>(s: seq<T>, m: int, n: int)
    requires 0 <= n <= m <= |s|
    ensures s[..m][..n] == s[..n]
  {
  }

  lemma IndexAppend<T>(a: seq<T>, b: seq<T>, i: int)
    requires 0 <= i < |a| + |b|
    ensures (a + b)[i] == if i < |a| then a[i] else b[i - |a|]
  {
  }

  /** The fields before `c` hold at most the characters of all fields. */
  lemma {:induction false} PrefixConcatLength(columns: seq<string>, c: int)
    requires 0 <= c < |columns|
    ensures Offset(columns, c) + |columns[c]| <= |Concat(columns)|
  {
    var rest := columns[c + 1..];
    assert columns == columns[..c] + [columns[c]] + rest;
    ConcatAppend(columns[..c] + [columns[c]], rest);
    ConcatSnoc(columns[..c], columns[c]);
  }

  lemma {:induction false} ConcatAppend(a: seq<string>, b: seq<string>)
    ensures Concat(a + b) == Concat(a) + Concat(b)
  {
    if |a| > 0 {
      assert (a + b)[1..] == a[1..] + b;
      ConcatAppend(a[1..], b);
    } else {
      assert a + b == b;
    }
  }

  /** Decoding one more character of a field whose prefix decoded. */
  lemma ColumnCellsStep(str: string, n: nat, col: int)
    requires n < |str| && ColumnCells(str[..n], col).Success?
    ensures ColumnCells(str[..n + 1], col) ==
      match RowOf(str[n])
      case None => Failure(InvalidCharacter(str[n]))
      case Some(row) => Success(ColumnCells(str[..n], col).value + [Position(row, col)])
  {
    TakeTake(str, n + 1, n);
  }

  /** Once a prefix of a field fails, the whole field fails the same way. */
  lemma {:induction false} ColumnCellsPrefixFailure(str: string, n: nat, col: int)
    requires n <= |str| && ColumnCells(str[..n], col).Failure?
    ensures ColumnCells(str, col) == ColumnCells(str[..n], col)
    decreases |str| - n
  {
    if n < |str| {
      var m := |str| - 1;
      TakeTake(str, m, n);
      ColumnCellsPrefixFailure(str[..m], n, col);
    } else {
      assert str[..n] == str;
    }
  }

  /** Once the first fields fail, all of them fail the same way. */
  lemma {:induction false} CellsPrefixFailure(columns: seq<string>, n: nat)
    requires n <= |columns| && Cells(columns[..n]).Failure?
    ensures Cells(columns) == Cells(columns[..n])
    decreases |columns| - n
  {
    if n < |columns| {
      var m := |columns| - 1;
      TakeTake(columns, m, n);
      CellsPrefixFailure(columns[..m], n);
    } else {
      assert columns[..n] == columns;
    }
  }

  // ---------------------------------------------------------------------
  // Whole entries

  /** `puzzle-` followed by the number, zero-padded to at least three characters. */
  function PuzzleId(puzzleNumber: JsNumber): string {
    "puzzle-" + PadStart(NumberToString(puzzleNumber), 3, '0')
  }

  /** What parseCompressedPuzzle returns, or the error it throws, for one entry. */
  function Parse(compressed: string): Result<PuzzleConfig, ParseError> {
    match SymmetryIndex(compressed)
    case None => Failure(InvalidFormat(compressed))
    case Some(i) =>
      var puzzleNumber := ParseInt(compressed[..i]);
      var columns := Split(compressed[i + 1..], ';');
      match Cells(columns)
      case Failure(e) => Failure(e)
      case Success(ps) =>
        Success(PuzzleConfig(PuzzleId(puzzleNumber), puzzleNumber, |columns|, SymmetryClassOf(compressed[i]), ps))
  }

  /** An entry without any symmetry character is rejected as malformed, and only such an entry. */
  lemma ParseRejectsMissingSymmetry(compressed: string)
    ensures Parse(compressed) == Failure(InvalidFormat(compressed))
        <==> forall k | 0 <= k < |compressed| :: !IsSymmetryChar(compressed[k])
  {
    if SymmetryIndex(compressed).Some? {
      var i := SymmetryIndex(compressed).value;
      var columns := Split(compressed[i + 1..], ';');
      if Cells(columns).Failure? {
        CellsFail(columns);
      }
    }
  }

  /** The fields hold only row characters exactly when the column data holds only those and ';'. */
  lemma AllRowsOfSplit(data: string)
    ensures AllRows(Split(data, ';')) <==> forall j | 0 <= j < |data| :: data[j] == ';' || RowOf(data[j]).Some?
  {
    var columns := Split(data, ';');
    ConcatSplit(data, ';');
    if AllRows(columns) {
      forall j | 0 <= j < |data| && data[j] != ';'
        ensures RowOf(data[j]).Some?
      {
        var x := data[j];
        WithoutMembers(data, ';', x);
        ConcatMembers(columns, x);
        var c :| 0 <= c < |columns| && x in columns[c];
        var k :| 0 <= k < |columns[c]| && columns[c][k] == x;
      }
    }
    if forall j | 0 <= j < |data| :: data[j] == ';' || RowOf(data[j]).Some? {
      forall c, k | 0 <= c < |columns| && 0 <= k < |columns[c]|
        ensures RowOf(columns[c][k]).Some?
      {
        var x := columns[c][k];
        ConcatMembers(columns, x);
        WithoutMembers(data, ';', x);
      }
    }
  }

  /**
   * An entry parses exactly when it has a symmetry character and every
   * character after the first one is ';' or a row character.
   */
  lemma ParseSucceeds(compressed: string)
    ensures Parse(compressed).Success? <==>
      && SymmetryIndex(compressed).Some?
      && forall k | SymmetryIndex(compressed).value < k < |compressed| ::
           compressed[k] == ';' || RowOf(compressed[k]).Some?
  {
    if SymmetryIndex(compressed).Some? {
      var i := SymmetryIndex(compressed).value;
      var data := compressed[i + 1..];
      CellsSucceed(Split(data, ';'));
      AllRowsOfSplit(data);
      assert forall k | i < k < |compressed| :: compressed[k] == data[k - i - 1];
    }
  }

  /**
   * A rejected character is the first, in column-major order, that names no
   * row; it comes after the symmetry character and is not ';'.
   */
  lemma ParseRejectsCharacter(compressed: string)
    requires Parse(compressed).Failure? && SymmetryIndex(compressed).Some?
    ensures var i := SymmetryIndex(compressed).value;
      var columns := Split(compressed[i + 1..], ';');
      exists c, k :: FirstBad(columns, c, k) && Parse(compressed).error == InvalidCharacter(columns[c][k])
    ensures Parse(compressed).error.InvalidCharacter?
    ensures var ch := Parse(compressed).error.ch;
      ch != ';' && RowOf(ch).None? && ch in compressed[SymmetryIndex(compressed).value + 1..]
  {
    var i := SymmetryIndex(compressed).value;
    var data := compressed[i + 1..];
    var columns := Split(data, ';');
    CellsFail(columns);
    var c, k :| FirstBad(columns, c, k) && Cells(columns).error == InvalidCharacter(columns[c][k]);
    var x := columns[c][k];
    ConcatSplit(data, ';');
    ConcatMembers(columns, x);
    WithoutMembers(data, ';', x);
  }

  /**
   * The fields of a parsed entry: the class of its first symmetry character,
   * the number `parseInt` reads before it, one column per ';'-separated
   * field, and one neighbour per column character, in column-major order.
   */
  lemma ParseFields(compressed: string)
    requires Parse(compressed).Success?
    ensures var i := SymmetryIndex(compressed).value;
      var data := compressed[i + 1..];
      var cfg := Parse(compressed).value;
      && cfg.symmetryClass == SymmetryClassOf(compressed[i])
      && cfg.puzzleNumber == ParseInt(compressed[..i])
      && cfg.id == PuzzleId(cfg.puzzleNumber)
      && cfg.size == Count(data, ';') + 1
      && |cfg.prePlacedNeighbors| == |data| - Count(data, ';')
      && ColumnMajor(cfg.prePlacedNeighbors, cfg.size)
  {
    var i := SymmetryIndex(compressed).value;
    var data := compressed[i + 1..];
    var columns := Split(data, ';');
    CellsLayout(columns);
    ConcatSplit(data, ';');
    WithoutLength(data, ';');
  }

  /**
   * The number before the symmetry character is never negative (a sign
   * would itself be the symmetry character), and it is NaN exactly when the
   * entry does not start with a digit.
   */
  lemma ParseNumberUnsigned(compressed: string)
    requires Parse(compressed).Success?
    ensures var n := Parse(compressed).value.puzzleNumber;
      && (n.NaN? <==> !IsDigit(compressed[0]))
      && (n.Int? ==> n.value >= 0)
  {
    var i := SymmetryIndex(compressed).value;
    var prefix := compressed[..i];
    if i > 0 {
      assert prefix[0] == compressed[0];
      assert !IsSymmetryChar(compressed[0]);
      assert IsSymmetryChar('-') && IsSymmetryChar('+');
    } else {
      assert IsSymmetryChar(compressed[0]);
    }
  }

  /** The id of a number is `puzzle-`, then at least three digits that read back as the number. */
  lemma PuzzleIdDigits(n: nat)
    ensures PuzzleId(Int(n))[..7] == "puzzle-"
    ensures var digits := PuzzleId(Int(n))[7..];
      |digits| >= 3 && AllDigits(digits) && ParseInt(digits) == Int(n)
  {
    var s := IntToString(n);
    var digits := PadStart(s, 3, '0');
    assert PuzzleId(Int(n)) == "puzzle-" + digits;
    assert PuzzleId(Int(n))[7..] == digits;
    ParseIntPadded(n, 3);
    if |s| < 3 {
      assert digits == Repeat('0', 3 - |s|) + s;
      forall j | 0 <= j < |digits|
        ensures IsDigit(digits[j])
      {
        if j >= 3 - |s| {
          assert digits[j] == s[j - (3 - |s|)];
        }
      }
    }
  }

  /** Different puzzle numbers get different ids. */
  lemma PuzzleIdInjective(n: nat, m: nat)
    requires PuzzleId(Int(n)) == PuzzleId(Int(m))
    ensures n == m
  {
    PuzzleIdDigits(n);
    PuzzleIdDigits(m);
  }

  /**
   * The inner loop of parseCompressedPuzzle: every character of field `col`
   * pushes a neighbour in column `col` onto `ps`, and the first character
   * that names no row throws.
   */
  method PushColumn(ps: seq<Position>, columnStr: string, col: int) returns (r: Result<seq<Position>, ParseError>)
    ensures r == match ColumnCells(columnStr, col)
      case Failure(e) => Failure(e)
      case Success(qs) => Success(ps + qs)
  {
    var prePlacedNeighbors := ps;
    var charIndex := 0;
    while charIndex < |columnStr|
      invariant 0 <= charIndex <= |columnStr|
      invariant ColumnCells(columnStr[..charIndex], col).Success?
      invariant prePlacedNeighbors == ps + ColumnCells(columnStr[..charIndex], col).value
    {
      var ch := columnStr[charIndex];
      ColumnCellsStep(columnStr, charIndex, col);
      var row: int;
      if '0' <= ch <= '9' {
        DigitRow(ch);
        row := ParseInt([ch]).value;
      } else if 'A' <= ch <= 'Z' {
        row := ch as int - 'A' as int + 10;
      } else {
        ColumnCellsPrefixFailure(columnStr, charIndex + 1, col);
        return Failure(InvalidCharacter(ch));
      }
      prePlacedNeighbors := prePlacedNeighbors + [Position(row, col)];
      charIndex := charIndex + 1;
    }
    assert columnStr[..charIndex] == columnStr;
    return Success(prePlacedNeighbors);
  }

  /** The outer loop of parseCompressedPuzzle: the fields, left to right. */
  method DecodeColumns(columns: seq<string>) returns (r: Result<seq<Position>, ParseError>)
    ensures r == Cells(columns)
  {
    var prePlacedNeighbors: seq<Position> := [];
    var col := 0;
    while col < |columns|
      invariant 0 <= col <= |columns|
      invariant Cells(columns[..col]) == Success(prePlacedNeighbors)
    {
      assert columns[..col + 1][..col] == columns[..col];
      var pushed := PushColumn(prePlacedNeighbors, columns[col], col);
      if pushed.Failure? {
        CellsPrefixFailure(columns, col + 1);
        return Failure(pushed.error);
      }
      prePlacedNeighbors := pushed.value;
      col := col + 1;
    }
    assert columns[..col] == columns;
    return Success(prePlacedNeighbors);
  }

  /** parseCompressedPuzzle: a scan for the symmetry character, then a pass over the fields. */
  method ParseCompressedPuzzle(compressed: string) returns (r: Result<PuzzleConfig, ParseError>)
    ensures r == Parse(compressed)
  {
    var symmetryIndex := -1;
    var symmetryChar := ' ';
    var i := 0;
    while i < |compressed|
      invariant 0 <= i <= |compressed|
      invariant symmetryIndex == -1
      invariant forall k | 0 <= k < i :: !IsSymmetryChar(compressed[k])
    {
      if compressed[i] in SymmetryChars {
        symmetryIndex := i;
        symmetryChar := compressed[i];
        break;
      }
      i := i + 1;
    }

    if symmetryIndex == -1 {
      return Failure(InvalidFormat(compressed));
    }
    assert SymmetryIndex(compressed) == Some(symmetryIndex);

    var puzzleNumber := ParseInt(compressed[..symmetryIndex]);
    var columnData := compressed[symmetryIndex + 1..];
    var columns := Split(columnData, ';');
    var size := |columns|;

    var decoded := DecodeColumns(columns);
    if decoded.Failure? {
      return Failure(decoded.error);
    }
    var prePlacedNeighbors := decoded.value;

    return Success(PuzzleConfig(
      PuzzleId(puzzleNumber), puzzleNumber, size, SymmetryClassOf(symmetryChar), prePlacedNeighbors));
  }

  // ---------------------------------------------------------------------
  // The catalogue

  /** COMPRESSED_PUZZLES: puzzle 1 first. */
  const CompressedPuzzles: seq<string> := [
    "1*;", "2x;;2", "3-;1;1;", "4x2;;01;", "5:01;;;", "6*;03;;2",
    "7.0;;;0;", "8/0;;;3;", "9/0;0;;;4", "10.01;;;;3", "11.1;;3;;3", "12x0;;;;;5",
    "13.;4;;;45;", "14.0;;;1;3;", "15.0;;1;2;;", "16.;;24;;;", "17o;;;5;03;", "18o;5;;;2;",
    "19x;;;3;5;4", "20o;;;;03;3", "21:;24;;0;;", "22:;;2;5;0;", "23.03;;;;;6;", "24:0;;6;;;;6",
    "25.;2;;;3;6;", "26.0;;;;;4;5", "27.0;;;1;;1;", "28/0;;2;;;;", "29:2;;1;;;2;", "30:;2;2;;4;;",
    "31.4;;4;;;2;", "32:;;;;36;5;5", "33:;;;;0;5;5", "34.1;;6;;5;;", "35:;;01;0;;;5", "36:4;5;;;;1;5",
    "37:1;;;5;;6;", "38.1;1;;4;;;", "39:;;;5;;4;5", "40:;;2;;;2;", "41.1;;;14;;;", "42.12;;6;;;;",
    "43.;;4;1;3;;", "44.;15;36;;;;", "45/0;;;;;2;0;", "46.0;;;1;;6;;", "47.0;;1;;;;2;1", "48.0;;;;35;;;",
    "49.0;;;;6;;;6", "50.0;6;6;;;;;2", "51.;6;5;;;;5;", "52.;;35;5;;;;", "53.0;;;4;;;;6", "54.;2;;;5;;;0",
    "55.;3;;;;1;;1", "56:0;3;3;;;6;;", "57.;;1;;;4;;0", "58.0;;1;;;;;14", "59/0;;;4;3;;;", "60.0;7;;;;;2;",
    "61.0;;1;;;;0;", "62/;;2;7;4;;;3", "63/5;;;3;;03;;", "64.1;;;4;;;;5", "65.1;;6;;2;6;;", "66.;0;6;;;0;;",
    "67.1;2;;;3;;;", "68.1;;1;;5;;;", "69.;6;7;;;;27;", "70:14;;1;;;;;6", "71.1;;;03;;;;", "72.4;;37;;;;;",
    "73.1;;;;5;;;2", "74.1;0;;;;;5;", "75.;;4;;;;;45", "76/1;05;;;;1;;", "77.;6;;;4;;2;", "78.1;16;;;;;;5",
    "79.1;14;;7;;;;", "80.1;;;;1;;;4", "81:;2;;;2;;5;6", "82.1;2;;;;;1;", "83.1;;6;;;1;;2", "84.1;;;;2;;1;2",
    "85.1;;3;;2;1;;", "86:1;6;;;;;1;6", "87.1;;1;;;5;;2", "88.;4;13;;;;;6", "89.1;;;1;2;;;2", "90-;;24;;;4;;",
    "91.1;;1;;;7;4;", "92:;;;;;3;;56", "93.;;;;3;4;;", "94.12;;;;;;;3", "95.;;;3;;4;;6", "96:;1;;;;3;6;",
    "97:2;1;;;5;6;;5", "98o;23;;;;1;;3", "99o;;17;;17;;;5", "100o;;1;1;;;;5"
  ]

  /** getPuzzleCount: the catalogue holds a hundred puzzles. */
  function GetPuzzleCount(): (n: nat)
    ensures n == 100
  {
    |CompressedPuzzles|
  }

  /** getPuzzleByIndex: no puzzle (null) exactly for an index outside the catalogue. */
  function GetPuzzleByIndex(index: int): (r: Option<Result<PuzzleConfig, ParseError>>)
    ensures r.None? <==> index < 0 || index >= GetPuzzleCount()
    ensures r.Some? ==> r.value == Parse(CompressedPuzzles[index])
  {
    if index < 0 || index >= |CompressedPuzzles| then None
    else Some(Parse(CompressedPuzzles[index]))
  }

  /** getDefaultPuzzle: the catalogue's first puzzle. */
  function GetDefaultPuzzle(): (r: Result<PuzzleConfig, ParseError>)
    ensures GetPuzzleByIndex(0) == Some(r)
  {
    Parse(CompressedPuzzles[0])
  }

  /** Entry `compressed` parses to a puzzle with id `id`. */
  predicate HasId(compressed: string, id: string) {
    Parse(compressed).Success? && Parse(compressed).value.id == id
  }

  /** Entry `compressed` parses to a puzzle with another id than `id`. */
  predicate OtherId(compressed: string, id: string) {
    Parse(compressed).Success? && Parse(compressed).value.id != id
  }

  /**
   * `findIndex` of the entry whose parsed id is `id`: the first such index,
   * -1 if every entry parses to another id, or the error of the first entry
   * that does not parse before one matches (the callback parses, and a
   * parse error propagates out of `findIndex`).
   */
  function FindPuzzleIndex(puzzles: seq<string>, id: string): (r: Result<int, ParseError>)
    ensures r.Success? ==> -1 <= r.value < |puzzles|
    ensures r.Success? && r.value >= 0 ==> HasId(puzzles[r.value], id)
  {
    if |puzzles| == 0 then Success(-1)
    else match Parse(puzzles[0])
      case Failure(e) => Failure(e)
      case Success(cfg) =>
        if cfg.id == id then Success(0)
        else match FindPuzzleIndex(puzzles[1..], id)
          case Failure(e) => Failure(e)
          case Success(j) =>
            assert j >= 0 ==> puzzles[j + 1] == puzzles[1..][j];
            Success(if j == -1 then -1 else j + 1)
  }

  /** Every entry before the one found, or every entry when none is, parses to another id. */
  lemma {:induction false} FindPuzzleIndexSkips(puzzles: seq<string>, id: string)
    ensures var r := FindPuzzleIndex(puzzles, id);
      r.Success? ==> forall k | 0 <= k < (if r.value == -1 then |puzzles| else r.value) :: OtherId(puzzles[k], id)
  {
    if |puzzles| > 0 && OtherId(puzzles[0], id) {
      var r := FindPuzzleIndex(puzzles, id);
      FindPuzzleIndexSkips(puzzles[1..], id);
      if r.Success? {
        forall k | 1 <= k < (if r.value == -1 then |puzzles| else r.value)
          ensures OtherId(puzzles[k], id)
        {
          assert puzzles[k] == puzzles[1..][k - 1];
        }
      }
    }
  }

  /** A failure is the parse error of an entry all of whose predecessors parse to other ids. */
  lemma {:induction false} FindPuzzleIndexFails(puzzles: seq<string>, id: string)
    ensures var r := FindPuzzleIndex(puzzles, id);
      r.Failure? ==> exists k | 0 <= k < |puzzles| ::
        Parse(puzzles[k]) == Failure(r.error) && forall m | 0 <= m < k :: OtherId(puzzles[m], id)
  {
    var r := FindPuzzleIndex(puzzles, id);
    if |puzzles| > 0 && r.Failure? {
      if Parse(puzzles[0]).Failure? {
        assert Parse(puzzles[0]) == Failure(r.error);
      } else {
        var tail := puzzles[1..];
        assert FindPuzzleIndex(tail, id) == Failure(r.error);
        FindPuzzleIndexFails(tail, id);
        var k :| 0 <= k < |tail| && Parse(tail[k]) == Failure(r.error) && forall m | 0 <= m < k :: OtherId(tail[m], id);
        assert Parse(puzzles[k + 1]) == Failure(r.error) && forall m | 0 <= m < k + 1 :: OtherId(puzzles[m], id) by {
          forall m | 0 < m < k + 1
            ensures OtherId(puzzles[m], id)
          {
            assert puzzles[m] == tail[m - 1];
          }
          assert puzzles[k + 1] == tail[k];
        }
      }
    }
  }

  /** -1 exactly when every entry parses to another id. */
  lemma FindPuzzleIndexNone(puzzles: seq<string>, id: string)
    ensures FindPuzzleIndex(puzzles, id) == Success(-1) <==> forall k | 0 <= k < |puzzles| :: OtherId(puzzles[k], id)
  {
    FindPuzzleIndexSkips(puzzles, id);
    FindPuzzleIndexFails(puzzles, id);
  }

  /** getPuzzleIndex. */
  function GetPuzzleIndex(puzzleId: string): (r: Result<int, ParseError>)
    ensures r.Success? && r.value >= 0 ==> r.value < GetPuzzleCount() && HasId(CompressedPuzzles[r.value], puzzleId)
    ensures r == Success(-1) <==> forall k | 0 <= k < |CompressedPuzzles| :: OtherId(CompressedPuzzles[k], puzzleId)
  {
    FindPuzzleIndexNone(CompressedPuzzles, puzzleId);
    FindPuzzleIndex(CompressedPuzzles, puzzleId)
  }

  /**
   * getPuzzleById over a list of entries: the first puzzle with that id, or
   * none (null); a parse error before it propagates.
   */
  function FindPuzzle(puzzles: seq<string>, id: string): (r: Result<Option<PuzzleConfig>, ParseError>)
    ensures r.Success? && r.value.Some? ==>
      r.value.value.id == id && exists k | 0 <= k < |puzzles| :: Parse(puzzles[k]) == Success(r.value.value)
    ensures r == Success(None) <==> forall k | 0 <= k < |puzzles| :: OtherId(puzzles[k], id)
  {
    FindPuzzleIndexNone(puzzles, id);
    match FindPuzzleIndex(puzzles, id)
    case Failure(e) => Failure(e)
    case Success(index) =>
      if index == -1 then Success(None)
      else
        var cfg := Parse(puzzles[index]).value;
        assert Parse(puzzles[index]) == Success(cfg);
        Success(Some(cfg))
  }

  /** getPuzzleById: the first catalogue puzzle with that id, or none (null). */
  function GetPuzzleById(id: string): (r: Result<Option<PuzzleConfig>, ParseError>)
    ensures r.Success? && r.value.Some? ==>
      r.value.value.id == id && exists k | 0 <= k < |CompressedPuzzles| :: Parse(CompressedPuzzles[k]) == Success(r.value.value)
    ensures r == Success(None) <==> forall k | 0 <= k < |CompressedPuzzles| :: OtherId(CompressedPuzzles[k], id)
  {
    FindPuzzle(CompressedPuzzles, id)
  }
}
