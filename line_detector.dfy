// The collinearity engine (src/game/engine/LineDetector.ts): which empty
// cells would complete a three-in-a-line, and the neighbour pairs and
// lines behind each such cell.  A neighbour set is a duplicate-free
// sequence of canonical "row,col" keys in insertion order.
module LineDetection {
  import opened JsSets
  import opened Grid
  import opened LineAlgebra

  datatype ConstraintRelationship = ConstraintRelationship(
    neighborPair: (Position, Position),
    line: Line,
    forbiddenSquares: seq<Position>)

  datatype InspectionData = InspectionData(
    inspectedNeighbor: Position,
    constraintRelationships: seq<ConstraintRelationship>)

  datatype ForbiddenSquareInfo = ForbiddenSquareInfo(
    position: Position,
    causedBy: seq<ConstraintRelationship>)

  predicate InGrid(p: Position, n: int) {
    0 <= p.row < n && 0 <= p.col < n
  }

  /** Row-major order: the order in which the grid is scanned. */
  predicate Before(p: Position, q: Position) {
    p.row < q.row || (p.row == q.row && p.col < q.col)
  }

  predicate RowMajor(s: seq<Position>) {
    forall i, j | 0 <= i < j < |s| :: Before(s[i], s[j])
  }

  /** Every element is a canonical key, as `positionToKey` writes them. */
  predicate AllKeys(ks: seq<Key>) {
    forall i | 0 <= i < |ks| :: IsKey(ks[i])
  }

  /** `Array.from(set).map(key => key.split(',').map(Number))`. */
  function Positions(ks: seq<Key>): (ps: seq<Position>)
    requires AllKeys(ks)
    ensures |ps| == |ks|
    ensures forall i | 0 <= i < |ks| :: PositionToKey(ps[i]) == ks[i]
  {
    if |ks| == 0 then [] else [PositionOf(ks[0])] + Positions(ks[1..])
  }

  /** A set of keys gives pairwise distinct positions. */
  lemma PositionsDistinct(ks: seq<Key>)
    requires AllKeys(ks) && NoDup(ks)
    ensures var ps := Positions(ks);
      forall a, b | 0 <= a < |ps| && 0 <= b < |ps| && ps[a] == ps[b] :: a == b
  {
  }

  /** `p` lies on the line through the a-th and b-th entries of `ps`. */
  predicate OnPairLine(p: Position, ps: seq<Position>, a: int, b: int)
    requires 0 <= a < |ps| && 0 <= b < |ps|
  {
    IsPointOnLine(p, GetLineFromTwoPoints(ps[a], ps[b]))
  }

  /**
   * `p` lies on the line of some pair (a, b), a < b, of `ps` that comes
   * before the pair (i, j) in the order the nested loops visit pairs.
   */
  predicate CoveredBefore(p: Position, ps: seq<Position>, i: int, j: int) {
    exists a, b | 0 <= a < b < |ps| && (a < i || (a == i && b < j)) :: OnPairLine(p, ps, a, b)
  }

  /** `p` lies on the line of some pair of distinct entries of `ps`. */
  predicate OnSomePairLine(p: Position, ps: seq<Position>) {
    exists a, b | 0 <= a < b < |ps| :: OnPairLine(p, ps, a, b)
  }

  /**
   * A forbidden square: inside the grid, not a neighbour, and on the line
   * through some pair of neighbours.
   */
  predicate IsForbidden(p: Position, neighbors: seq<Key>, n: int)
    requires AllKeys(neighbors)
  {
    InGrid(p, n) && !Has(neighbors, p) && OnSomePairLine(p, Positions(neighbors))
  }

  /** `cells.filter(pos => !neighbors.has(positionToKey(pos)))`. */
  function Unoccupied(cells: seq<Position>, neighbors: seq<Key>): (r: seq<Position>)
    ensures forall q :: q in r <==> q in cells && !Has(neighbors, q)
    ensures RowMajor(cells) ==> RowMajor(r)
    ensures |r| <= |cells|
  {
    if |cells| == 0 then []
    else
      var rest := Unoccupied(cells[1..], neighbors);
      assert RowMajor(cells) ==> RowMajor(cells[1..]) && forall q | q in rest :: Before(cells[0], q);
      if Has(neighbors, cells[0]) then rest else [cells[0]] + rest
  }

  /** The cells a relationship lists: the empty in-grid cells on `line`, row-major. */
  ghost predicate IsEmptyCellList(cells: seq<Position>, line: Line, neighbors: seq<Key>, n: int) {
    && RowMajor(cells)
    && forall q :: q in cells <==> InGrid(q, n) && IsPointOnLine(q, line) && !Has(neighbors, q)
  }

  /** Some empty in-grid cell lies on `line`. */
  ghost predicate HasEmptyCell(line: Line, neighbors: seq<Key>, n: int) {
    exists q :: InGrid(q, n) && IsPointOnLine(q, line) && !Has(neighbors, q)
  }

  /** `rel` is the relationship of the pair (a, b) as the detector builds it. */
  ghost predicate IsRelationship(rel: ConstraintRelationship, a: Position, b: Position, neighbors: seq<Key>, n: int) {
    && rel.neighborPair == (a, b)
    && rel.line == GetLineFromTwoPoints(a, b)
    && IsEmptyCellList(rel.forbiddenSquares, rel.line, neighbors, n)
  }

  /** Two pairs made of the same two cells, in either order. */
  predicate SamePair(x: (Position, Position), y: (Position, Position)) {
    (x.0 == y.0 && x.1 == y.1) || (x.0 == y.1 && x.1 == y.0)
  }

  /** The order in which the nested `i < j` loops visit index pairs. */
  predicate PairLess(x: (int, int), y: (int, int)) {
    x.0 < y.0 || (x.0 == y.0 && x.1 < y.1)
  }

  // ---------------------------------------------------------------------
  // Facts about the pair order

  lemma CoveredStep(ps: seq<Position>, i: int, j: int)
    requires 0 <= i < j < |ps|
    ensures forall p :: (CoveredBefore(p, ps, i, j + 1) <==> CoveredBefore(p, ps, i, j) || OnPairLine(p, ps, i, j))
  {
    forall p | CoveredBefore(p, ps, i, j + 1)
      ensures CoveredBefore(p, ps, i, j) || OnPairLine(p, ps, i, j)
    {
      var a, b :| 0 <= a < b < |ps| && (a < i || (a == i && b < j + 1)) && OnPairLine(p, ps, a, b);
      if !(a == i && b == j) {
        assert CoveredBefore(p, ps, i, j);
      }
    }
  }

  lemma CoveredRowEnd(ps: seq<Position>, i: int)
    requires 0 <= i < |ps|
    ensures forall p :: CoveredBefore(p, ps, i, |ps|) <==> CoveredBefore(p, ps, i + 1, i + 2)
  {
  }

  lemma CoveredAll(ps: seq<Position>)
    ensures forall p :: CoveredBefore(p, ps, |ps|, |ps| + 1) <==> OnSomePairLine(p, ps)
  {
  }

  // ---------------------------------------------------------------------
  // What forbidden means geometrically

  /** `p` is collinear with two distinct cells of `neighbors`. */
  ghost predicate CollinearWithTwo(p: Position, neighbors: seq<Key>) {
    exists a, b :: Has(neighbors, a) && Has(neighbors, b) && a != b && Collinear(a, b, p)
  }

  /**
   * A cell is forbidden exactly when it is in the grid, unoccupied, and
   * collinear with two distinct neighbours.
   */
  lemma ForbiddenIffCollinear(p: Position, neighbors: seq<Key>, n: int)
    requires AllKeys(neighbors) && NoDup(neighbors)
    ensures IsForbidden(p, neighbors, n) <==>
      InGrid(p, n) && !Has(neighbors, p) && CollinearWithTwo(p, neighbors)
  {
    var ps := Positions(neighbors);
    if OnSomePairLine(p, ps) {
      PairLineCollinear(p, neighbors);
    }
    if CollinearWithTwo(p, neighbors) {
      CollinearPairLine(p, neighbors);
    }
  }

  lemma PairLineCollinear(p: Position, neighbors: seq<Key>)
    requires AllKeys(neighbors) && NoDup(neighbors)
    requires OnSomePairLine(p, Positions(neighbors))
    ensures CollinearWithTwo(p, neighbors)
  {
    var ps := Positions(neighbors);
    var i, j :| 0 <= i < j < |ps| && OnPairLine(p, ps, i, j);
    var a, b := ps[i], ps[j];
    assert neighbors[i] == PositionToKey(a) && neighbors[j] == PositionToKey(b);
    assert neighbors[i] != neighbors[j];
    assert a != b;
    OnLineIffCollinear(a, b, p);
    assert Has(neighbors, a) && Has(neighbors, b) && Collinear(a, b, p);
  }

  lemma CollinearPairLine(p: Position, neighbors: seq<Key>)
    requires AllKeys(neighbors)
    requires CollinearWithTwo(p, neighbors)
    ensures OnSomePairLine(p, Positions(neighbors))
  {
    var ps := Positions(neighbors);
    var a, b :| Has(neighbors, a) && Has(neighbors, b) && a != b && Collinear(a, b, p);
    var i :| 0 <= i < |neighbors| && neighbors[i] == PositionToKey(a);
    var j :| 0 <= j < |neighbors| && neighbors[j] == PositionToKey(b);
    PositionToKeyInjective(ps[i], a);
    PositionToKeyInjective(ps[j], b);
    OnLineIffCollinear(a, b, p);
    PairIndicesLine(p, ps, i, j);
  }

  /** A cell on the line through `ps[i]` and `ps[j]`, in either order, is on some pair's line. */
  lemma PairIndicesLine(p: Position, ps: seq<Position>, i: int, j: int)
    requires 0 <= i < |ps| && 0 <= j < |ps| && i != j
    requires IsPointOnLine(p, GetLineFromTwoPoints(ps[i], ps[j]))
    ensures OnSomePairLine(p, ps)
  {
    if i < j {
      assert OnPairLine(p, ps, i, j);
    } else {
      LineSymmetric(ps[i], ps[j]);
      assert OnPairLine(p, ps, j, i);
    }
  }

  /**
   * The inner `for (const pos of forbiddenOnLine)` loop: adds the key of
   * every listed cell that is not a neighbour.
   */
  method AddUnoccupiedKeys(forbidden: seq<Key>, cells: seq<Position>, neighbors: seq<Key>) returns (r: seq<Key>)
    requires NoDup(forbidden) && AllKeys(forbidden)
    ensures NoDup(r) && AllKeys(r)
    ensures forall p :: Has(r, p) <==> Has(forbidden, p) || (p in cells && !Has(neighbors, p))
  {
    r := forbidden;
    var k := 0;
    while k < |cells|
      invariant 0 <= k <= |cells|
      invariant NoDup(r) && AllKeys(r)
      invariant Collected(r, forbidden, cells[..k], neighbors)
    {
      var pos := cells[k];
      var key := PositionToKey(pos);
      CollectStep(r, forbidden, cells, k, neighbors);
      if key !in neighbors {
        r := Add(r, key);
      }
      k := k + 1;
    }
    assert cells[..k] == cells;
  }

  /** `r` holds the keys of `forbidden` and of the unoccupied cells among `cells`. */
  ghost predicate Collected(r: seq<Key>, forbidden: seq<Key>, cells: seq<Position>, neighbors: seq<Key>) {
    forall p :: Has(r, p) <==> Has(forbidden, p) || (p in cells && !Has(neighbors, p))
  }

  lemma CollectStep(r: seq<Key>, forbidden: seq<Key>, cells: seq<Position>, k: int, neighbors: seq<Key>)
    requires 0 <= k < |cells|
    requires NoDup(r) && AllKeys(r)
    requires Collected(r, forbidden, cells[..k], neighbors)
    ensures var key := PositionToKey(cells[k]);
      var next := if key !in neighbors then Add(r, key) else r;
      NoDup(next) && AllKeys(next) && Collected(next, forbidden, cells[..k + 1], neighbors)
  {
    var pos := cells[k];
    var key := PositionToKey(pos);
    var next := if key !in neighbors then Add(r, key) else r;
    KeyOfPosition(pos);
    assert AllKeys(next) by {
      forall i | 0 <= i < |next| ensures IsKey(next[i]) {
        assert next[i] in r || next[i] == key;
      }
    }
    PrefixStep(cells, k);
    forall p
      ensures Has(next, p) <==> Has(forbidden, p) || (p in cells[..k + 1] && !Has(neighbors, p))
    {
      if PositionToKey(p) == key {
        PositionToKeyInjective(p, pos);
      }
    }
  }

  /** One more element of a prefix. */
  lemma PrefixStep<T>(s: seq<T>, k: int)
    requires 0 <= k < |s|
    ensures s[..k + 1] == s[..k] + [s[k]]
  {
  }

  // ---------------------------------------------------------------------
  // The detector

  class LineDetector {
    const gridSize: int

    constructor(gridSize: int)
      ensures this.gridSize == gridSize
    {
      this.gridSize := gridSize;
    }

    /** The `gcd` loop: Euclid's algorithm on two non-negative numbers. */
    method ComputeGcd(a: nat, b: nat) returns (g: nat)
      ensures g == Gcd(a, b)
      ensures a > 0 || b > 0 ==> g > 0 && a % g == 0 && b % g == 0
    {
      var x, y := a, b;
      while y != 0
        invariant Gcd(x, y) == Gcd(a, b)
        decreases y
      {
        var temp := y;
        y := x % y;
        x := temp;
      }
      g := x;
      if a > 0 || b > 0 {
        GcdDivides(a, b);
      }
    }

    /** findGridPositionsOnLine: the cells of the grid on `line`, row-major. */
    method FindGridPositionsOnLine(line: Line) returns (positions: seq<Position>)
      ensures RowMajor(positions)
      ensures forall q :: q in positions <==> InGrid(q, gridSize) && IsPointOnLine(q, line)
    {
      positions := [];
      if line.rise == 1 && line.run == 0 {
        var col := line.yIntWhole;
        if col >= 0 && col < gridSize {
          var row := 0;
          while row < gridSize
            invariant 0 <= row <= gridSize
            invariant RowMajor(positions)
            invariant forall k | 0 <= k < |positions| :: positions[k].row < row
            invariant forall q :: q in positions <==> 0 <= q.row < row && q.col == col
          {
            positions := positions + [Position(row, col)];
            row := row + 1;
          }
        }
        return;
      }
      if line.rise == 0 && line.run == 1 {
        var row := line.yIntWhole;
        if row >= 0 && row < gridSize {
          var col := 0;
          while col < gridSize
            invariant 0 <= col <= gridSize
            invariant RowMajor(positions)
            invariant forall k | 0 <= k < |positions| :: positions[k].row == row && positions[k].col < col
            invariant forall q :: q in positions <==> q.row == row && 0 <= q.col < col
          {
            positions := positions + [Position(row, col)];
            col := col + 1;
          }
        }
        return;
      }
      var row := 0;
      while row < gridSize
        invariant 0 <= row <= gridSize || (gridSize < 0 && row == 0)
        invariant RowMajor(positions)
        invariant forall k | 0 <= k < |positions| :: positions[k].row < row
        invariant forall q :: q in positions <==> InGrid(q, gridSize) && q.row < row && IsPointOnLine(q, line)
      {
        var col := 0;
        while col < gridSize
          invariant 0 <= col <= gridSize
          invariant RowMajor(positions)
          invariant forall k | 0 <= k < |positions| :: Before(positions[k], Position(row, col))
          invariant forall q :: q in positions <==>
            InGrid(q, gridSize) && (q.row < row || (q.row == row && q.col < col)) && IsPointOnLine(q, line)
        {
          if IsPointOnLine(Position(row, col), line) {
            positions := positions + [Position(row, col)];
          }
          col := col + 1;
        }
        row := row + 1;
      }
    }

    /**
     * calculateForbiddenSquares: the keys of every empty in-grid cell on
     * the line through some pair of neighbours.
     */
    method CalculateForbiddenSquares(neighbors: seq<Key>) returns (forbidden: seq<Key>)
      requires NoDup(neighbors) && AllKeys(neighbors)
      ensures |neighbors| < 2 ==> forbidden == []
      ensures NoDup(forbidden) && AllKeys(forbidden)
      ensures forall k | k in forbidden :: k !in neighbors
      ensures forall p :: Has(forbidden, p) <==> IsForbidden(p, neighbors, gridSize)
    {
      if |neighbors| < 2 {
        return [];
      }
      var neighborPositions := Positions(neighbors);
      forbidden := [];
      var i := 0;
      while i < |neighborPositions|
        invariant 0 <= i <= |neighborPositions|
        invariant ForbiddenSoFar(forbidden, neighbors, neighborPositions, i, i + 1)
      {
        forbidden := ForbidPairsFrom(forbidden, neighbors, neighborPositions, i);
        i := i + 1;
      }
      ForbiddenDone(forbidden, neighbors);
    }

    /**
     * What the loops of calculateForbiddenSquares have built before the
     * index pair (i, j): the keys of the empty in-grid cells on the line
     * of some earlier pair.
     */
    ghost predicate ForbiddenSoFar(forbidden: seq<Key>, neighbors: seq<Key>, ps: seq<Position>, i: int, j: int) {
      && NoDup(forbidden) && AllKeys(forbidden)
      && forall p :: Has(forbidden, p) <==> InGrid(p, gridSize) && !Has(neighbors, p) && CoveredBefore(p, ps, i, j)
    }

    /** The inner loop of calculateForbiddenSquares: the pairs (i, j) for every j > i. */
    method ForbidPairsFrom(forbidden0: seq<Key>, neighbors: seq<Key>, neighborPositions: seq<Position>, i: int)
      returns (forbidden: seq<Key>)
      requires 0 <= i < |neighborPositions|
      requires ForbiddenSoFar(forbidden0, neighbors, neighborPositions, i, i + 1)
      ensures ForbiddenSoFar(forbidden, neighbors, neighborPositions, i + 1, i + 2)
    {
      forbidden := forbidden0;
      var j := i + 1;
      while j < |neighborPositions|
        invariant i + 1 <= j <= |neighborPositions|
        invariant ForbiddenSoFar(forbidden, neighbors, neighborPositions, i, j)
      {
        var line := GetLineFromTwoPoints(neighborPositions[i], neighborPositions[j]);
        var forbiddenOnLine := FindGridPositionsOnLine(line);
        forbidden := AddUnoccupiedKeys(forbidden, forbiddenOnLine, neighbors);
        CoveredStep(neighborPositions, i, j);
        j := j + 1;
      }
      CoveredRowEnd(neighborPositions, i);
    }

    lemma ForbiddenDone(forbidden: seq<Key>, neighbors: seq<Key>)
      requires AllKeys(neighbors)
      requires ForbiddenSoFar(forbidden, neighbors, Positions(neighbors), |neighbors|, |neighbors| + 1)
      ensures forall k | k in forbidden :: k !in neighbors
      ensures forall p :: Has(forbidden, p) <==> IsForbidden(p, neighbors, gridSize)
    {
      CoveredAll(Positions(neighbors));
      forall k | k in forbidden
        ensures k !in neighbors
      {
        var u :| 0 <= u < |forbidden| && forbidden[u] == k;
        assert Has(forbidden, PositionOf(k));
      }
    }

    /** `findGridPositionsOnLine(line).filter(...)`: the empty cells on `line`. */
    method EmptyCellsOnLine(line: Line, neighbors: seq<Key>) returns (cells: seq<Position>)
      ensures IsEmptyCellList(cells, line, neighbors, gridSize)
      ensures |cells| > 0 <==> HasEmptyCell(line, neighbors, gridSize)
    {
      var onLine := FindGridPositionsOnLine(line);
      cells := Unoccupied(onLine, neighbors);
      if HasEmptyCell(line, neighbors, gridSize) {
        var q :| InGrid(q, gridSize) && IsPointOnLine(q, line) && !Has(neighbors, q);
        assert q in cells;
      }
      if |cells| > 0 {
        assert cells[0] in cells;
      }
    }

    /**
     * getInspectionData: one relationship per other neighbour whose line
     * with the inspected cell has an empty cell, in set order.
     */
    method GetInspectionData(inspectedNeighbor: Position, allNeighbors: seq<Key>) returns (data: InspectionData)
      requires NoDup(allNeighbors) && AllKeys(allNeighbors)
      ensures data.inspectedNeighbor == inspectedNeighbor
      ensures PartnersSound(inspectedNeighbor, allNeighbors, data.constraintRelationships)
      ensures PartnersComplete(inspectedNeighbor, allNeighbors, data.constraintRelationships)
      ensures PartnersDistinct(data.constraintRelationships)
    {
      var inspectedKey := PositionToKey(inspectedNeighbor);
      var neighborPositions := Positions(allNeighbors);
      var rels: seq<ConstraintRelationship> := [];
      ghost var from: seq<int> := [];
      var t := 0;
      while t < |neighborPositions|
        invariant 0 <= t <= |neighborPositions|
        invariant InspectionInvariant(inspectedNeighbor, neighborPositions, allNeighbors, rels, from, t)
      {
        rels, from := InspectOther(inspectedNeighbor, inspectedKey, neighborPositions, allNeighbors, rels, from, t);
        t := t + 1;
      }
      data := InspectionData(inspectedNeighbor, rels);
      InspectionSound(inspectedNeighbor, allNeighbors, rels, from);
      InspectionComplete(inspectedNeighbor, allNeighbors, rels, from);
      InspectionDistinct(inspectedNeighbor, allNeighbors, rels, from);
    }

    /** One pass of the loop of getInspectionData: the t-th neighbour of the set. */
    method InspectOther(inspectedNeighbor: Position, inspectedKey: Key, neighborPositions: seq<Position>,
                        allNeighbors: seq<Key>, rels0: seq<ConstraintRelationship>, ghost from0: seq<int>, t: int)
      returns (rels: seq<ConstraintRelationship>, ghost from: seq<int>)
      requires inspectedKey == PositionToKey(inspectedNeighbor)
      requires 0 <= t < |neighborPositions|
      requires InspectionInvariant(inspectedNeighbor, neighborPositions, allNeighbors, rels0, from0, t)
      ensures InspectionInvariant(inspectedNeighbor, neighborPositions, allNeighbors, rels, from, t + 1)
    {
      rels, from := rels0, from0;
      var otherNeighbor := neighborPositions[t];
      var otherKey := PositionToKey(otherNeighbor);
      if otherKey != inspectedKey {
        var line := GetLineFromTwoPoints(inspectedNeighbor, otherNeighbor);
        var forbiddenSquares := EmptyCellsOnLine(line, allNeighbors);
        if |forbiddenSquares| > 0 {
          var rel := ConstraintRelationship((inspectedNeighbor, otherNeighbor), line, forbiddenSquares);
          InspectionPush(inspectedNeighbor, neighborPositions, allNeighbors, rels, from, t, rel);
          rels := rels + [rel];
          from := from + [t];
        } else {
          InspectionSkip(inspectedNeighbor, neighborPositions, allNeighbors, rels, from, t);
        }
      } else {
        assert otherNeighbor == inspectedNeighbor by {
          PositionToKeyInjective(otherNeighbor, inspectedNeighbor);
        }
        InspectionSkip(inspectedNeighbor, neighborPositions, allNeighbors, rels, from, t);
      }
    }

    /**
     * What the loop of getInspectionData has built before the t-th
     * neighbour: one relationship per earlier partner with an empty cell
     * on its line, in set order; `from` records each one's index.
     */
    ghost predicate InspectionInvariant(inspected: Position, ps: seq<Position>, ks: seq<Key>,
                                        rels: seq<ConstraintRelationship>, from: seq<int>, t: int)
    {
      && |from| == |rels|
      && (forall r | 0 <= r < |rels| ::
            && 0 <= from[r] < t && from[r] < |ps|
            && rels[r].neighborPair.1 == ps[from[r]]
            && IsRelationship(rels[r], inspected, rels[r].neighborPair.1, ks, gridSize)
            && rels[r].neighborPair.1 != inspected
            && |rels[r].forbiddenSquares| > 0)
      && (forall r1, r2 | 0 <= r1 < r2 < |rels| :: from[r1] < from[r2])
      && (forall u {:trigger Partner(inspected, ps, ks, u)} | 0 <= u < t && u < |ps| && Partner(inspected, ps, ks, u) ::
            exists r | 0 <= r < |rels| :: from[r] == u)
    }

    /** The u-th neighbour is another cell whose line with `inspected` has an empty cell. */
    ghost predicate Partner(inspected: Position, ps: seq<Position>, ks: seq<Key>, u: int)
      requires 0 <= u < |ps|
    {
      ps[u] != inspected && HasEmptyCell(GetLineFromTwoPoints(inspected, ps[u]), ks, gridSize)
    }

    lemma InspectionPush(inspected: Position, ps: seq<Position>, ks: seq<Key>,
                         rels: seq<ConstraintRelationship>, from: seq<int>, t: int, rel: ConstraintRelationship)
      requires 0 <= t < |ps|
      requires InspectionInvariant(inspected, ps, ks, rels, from, t)
      requires IsRelationship(rel, inspected, ps[t], ks, gridSize)
      requires ps[t] != inspected && |rel.forbiddenSquares| > 0
      ensures InspectionInvariant(inspected, ps, ks, rels + [rel], from + [t], t + 1)
    {
      var rs, fs := rels + [rel], from + [t];
      forall u | 0 <= u < t + 1 && u < |ps| && Partner(inspected, ps, ks, u)
        ensures exists r | 0 <= r < |rs| :: fs[r] == u
      {
        if u == t {
          assert fs[|rels|] == u;
        } else {
          var r :| 0 <= r < |rels| && from[r] == u;
          assert fs[r] == u;
        }
      }
    }

    lemma InspectionSkip(inspected: Position, ps: seq<Position>, ks: seq<Key>,
                         rels: seq<ConstraintRelationship>, from: seq<int>, t: int)
      requires 0 <= t < |ps|
      requires InspectionInvariant(inspected, ps, ks, rels, from, t)
      requires !Partner(inspected, ps, ks, t)
      ensures InspectionInvariant(inspected, ps, ks, rels, from, t + 1)
    {
    }

    /**
     * Each relationship pairs `inspected` with another neighbour of the set
     * and lists the empty cells on their line, of which there is one at least.
     */
    ghost predicate PartnersSound(inspected: Position, ks: seq<Key>, rels: seq<ConstraintRelationship>) {
      forall r | 0 <= r < |rels| ::
        && IsRelationship(rels[r], inspected, rels[r].neighborPair.1, ks, gridSize)
        && Has(ks, rels[r].neighborPair.1)
        && rels[r].neighborPair.1 != inspected
        && |rels[r].forbiddenSquares| > 0
    }

    /** Every other neighbour whose line with `inspected` has an empty cell has a relationship. */
    ghost predicate PartnersComplete(inspected: Position, ks: seq<Key>, rels: seq<ConstraintRelationship>) {
      forall other | Has(ks, other) && other != inspected
          && HasEmptyCell(GetLineFromTwoPoints(inspected, other), ks, gridSize) ::
        exists r | 0 <= r < |rels| :: rels[r].neighborPair.1 == other
    }

    /** No neighbour is the partner of two relationships. */
    predicate PartnersDistinct(rels: seq<ConstraintRelationship>) {
      forall r1, r2 | 0 <= r1 < r2 < |rels| :: rels[r1].neighborPair.1 != rels[r2].neighborPair.1
    }

    lemma InspectionSound(inspected: Position, ks: seq<Key>, rels: seq<ConstraintRelationship>, from: seq<int>)
      requires AllKeys(ks)
      requires InspectionInvariant(inspected, Positions(ks), ks, rels, from, |ks|)
      ensures PartnersSound(inspected, ks, rels)
    {
      var ps := Positions(ks);
      forall r | 0 <= r < |rels|
        ensures Has(ks, rels[r].neighborPair.1)
      {
        assert ks[from[r]] == PositionToKey(ps[from[r]]);
      }
    }

    lemma InspectionComplete(inspected: Position, ks: seq<Key>, rels: seq<ConstraintRelationship>, from: seq<int>)
      requires AllKeys(ks)
      requires InspectionInvariant(inspected, Positions(ks), ks, rels, from, |ks|)
      ensures PartnersComplete(inspected, ks, rels)
    {
      forall other | Has(ks, other) && other != inspected
          && HasEmptyCell(GetLineFromTwoPoints(inspected, other), ks, gridSize)
        ensures exists r | 0 <= r < |rels| :: rels[r].neighborPair.1 == other
      {
        InspectionFound(inspected, ks, rels, from, other);
      }
    }

    lemma InspectionFound(inspected: Position, ks: seq<Key>, rels: seq<ConstraintRelationship>, from: seq<int>,
                          other: Position)
      requires AllKeys(ks)
      requires InspectionInvariant(inspected, Positions(ks), ks, rels, from, |ks|)
      requires Has(ks, other) && other != inspected
      requires HasEmptyCell(GetLineFromTwoPoints(inspected, other), ks, gridSize)
      ensures exists r | 0 <= r < |rels| :: rels[r].neighborPair.1 == other
    {
      var ps := Positions(ks);
      var u :| 0 <= u < |ks| && ks[u] == PositionToKey(other);
      PositionToKeyInjective(ps[u], other);
      assert Partner(inspected, ps, ks, u);
      var r :| 0 <= r < |rels| && from[r] == u;
      assert rels[r].neighborPair.1 == other;
    }

    lemma InspectionDistinct(inspected: Position, ks: seq<Key>, rels: seq<ConstraintRelationship>, from: seq<int>)
      requires AllKeys(ks) && NoDup(ks)
      requires InspectionInvariant(inspected, Positions(ks), ks, rels, from, |ks|)
      ensures PartnersDistinct(rels)
    {
      PositionsDistinct(ks);
    }

    /**
     * getForbiddenSquareInfo: the relationship of every neighbour pair
     * i < j whose line passes through `forbiddenSquare`, in loop order.
     */
    method GetForbiddenSquareInfo(forbiddenSquare: Position, allNeighbors: seq<Key>) returns (info: ForbiddenSquareInfo)
      requires NoDup(allNeighbors) && AllKeys(allNeighbors)
      ensures info.position == forbiddenSquare
      ensures CausesSound(forbiddenSquare, allNeighbors, info.causedBy)
      ensures CausesComplete(forbiddenSquare, allNeighbors, info.causedBy)
      ensures CausesDistinct(info.causedBy)
    {
      var neighborPositions := Positions(allNeighbors);
      var causedBy, idx := VisitPairs(forbiddenSquare, neighborPositions, allNeighbors);
      info := ForbiddenSquareInfo(forbiddenSquare, causedBy);
      PairsDone(forbiddenSquare, allNeighbors, causedBy, idx);
    }

    /** The outer loop of getForbiddenSquareInfo: every index pair i < j, row by row. */
    method VisitPairs(forbiddenSquare: Position, neighborPositions: seq<Position>, allNeighbors: seq<Key>)
      returns (causedBy: seq<ConstraintRelationship>, ghost idx: seq<(int, int)>)
      ensures PairsInvariant(forbiddenSquare, neighborPositions, allNeighbors, causedBy, idx,
                             |neighborPositions|, |neighborPositions| + 1)
    {
      causedBy, idx := [], [];
      var i := 0;
      while i < |neighborPositions|
        invariant 0 <= i <= |neighborPositions|
        invariant PairsInvariant(forbiddenSquare, neighborPositions, allNeighbors, causedBy, idx, i, i + 1)
      {
        causedBy, idx := PairsFrom(forbiddenSquare, neighborPositions, allNeighbors, causedBy, idx, i);
        i := i + 1;
      }
    }

    /** The inner loop of getForbiddenSquareInfo: the pairs (i, j) for every j > i. */
    method PairsFrom(forbiddenSquare: Position, neighborPositions: seq<Position>, allNeighbors: seq<Key>,
                     causedBy0: seq<ConstraintRelationship>, ghost idx0: seq<(int, int)>, i: int)
      returns (causedBy: seq<ConstraintRelationship>, ghost idx: seq<(int, int)>)
      requires 0 <= i < |neighborPositions|
      requires PairsInvariant(forbiddenSquare, neighborPositions, allNeighbors, causedBy0, idx0, i, i + 1)
      ensures PairsInvariant(forbiddenSquare, neighborPositions, allNeighbors, causedBy, idx, i + 1, i + 2)
    {
      causedBy, idx := causedBy0, idx0;
      var j := i + 1;
      while j < |neighborPositions|
        invariant i + 1 <= j <= |neighborPositions|
        invariant PairsInvariant(forbiddenSquare, neighborPositions, allNeighbors, causedBy, idx, i, j)
      {
        causedBy, idx := PairStep(forbiddenSquare, neighborPositions, allNeighbors, causedBy, idx, i, j);
        j := j + 1;
      }
      PairsRowEnd(forbiddenSquare, neighborPositions, allNeighbors, causedBy, idx, i);
    }

    /** One pass of the inner loop of getForbiddenSquareInfo: the index pair (i, j). */
    method PairStep(forbiddenSquare: Position, neighborPositions: seq<Position>, allNeighbors: seq<Key>,
                    causedBy0: seq<ConstraintRelationship>, ghost idx0: seq<(int, int)>, i: int, j: int)
      returns (causedBy: seq<ConstraintRelationship>, ghost idx: seq<(int, int)>)
      requires 0 <= i < j < |neighborPositions|
      requires PairsInvariant(forbiddenSquare, neighborPositions, allNeighbors, causedBy0, idx0, i, j)
      ensures PairsInvariant(forbiddenSquare, neighborPositions, allNeighbors, causedBy, idx, i, j + 1)
    {
      causedBy, idx := causedBy0, idx0;
      var pos1, pos2 := neighborPositions[i], neighborPositions[j];
      var line := GetLineFromTwoPoints(pos1, pos2);
      if IsPointOnLine(forbiddenSquare, line) {
        var forbiddenSquares := EmptyCellsOnLine(line, allNeighbors);
        var rel := ConstraintRelationship((pos1, pos2), line, forbiddenSquares);
        PairsPush(forbiddenSquare, neighborPositions, allNeighbors, causedBy, idx, i, j, rel);
        causedBy := causedBy + [rel];
        idx := idx + [(i, j)];
      } else {
        PairsSkip(forbiddenSquare, neighborPositions, allNeighbors, causedBy, idx, i, j);
      }
    }

    /**
     * What the loops of getForbiddenSquareInfo have built before visiting
     * the index pair (i, j): one relationship per earlier pair whose line
     * holds `target`, in visiting order; `idx` records each one's pair.
     */
    ghost predicate PairsInvariant(target: Position, ps: seq<Position>, ks: seq<Key>,
                                   causedBy: seq<ConstraintRelationship>, idx: seq<(int, int)>, i: int, j: int)
    {
      && |idx| == |causedBy|
      && (forall r | 0 <= r < |idx| ::
            && 0 <= idx[r].0 < idx[r].1 < |ps|
            && PairLess(idx[r], (i, j))
            && IsRelationship(causedBy[r], ps[idx[r].0], ps[idx[r].1], ks, gridSize)
            && IsPointOnLine(target, causedBy[r].line))
      && (forall r1, r2 | 0 <= r1 < r2 < |idx| :: PairLess(idx[r1], idx[r2]))
      && (forall a, b {:trigger OnPairLine(target, ps, a, b)}
            | 0 <= a < b < |ps| && PairLess((a, b), (i, j)) && OnPairLine(target, ps, a, b) ::
            exists r | 0 <= r < |idx| :: idx[r] == (a, b))
    }

    lemma PairsPush(target: Position, ps: seq<Position>, ks: seq<Key>,
                    causedBy: seq<ConstraintRelationship>, idx: seq<(int, int)>, i: int, j: int,
                    rel: ConstraintRelationship)
      requires 0 <= i < j < |ps|
      requires PairsInvariant(target, ps, ks, causedBy, idx, i, j)
      requires IsRelationship(rel, ps[i], ps[j], ks, gridSize)
      requires IsPointOnLine(target, rel.line)
      ensures PairsInvariant(target, ps, ks, causedBy + [rel], idx + [(i, j)], i, j + 1)
    {
      var x := idx + [(i, j)];
      forall a, b | 0 <= a < b < |ps| && PairLess((a, b), (i, j + 1)) && OnPairLine(target, ps, a, b)
        ensures exists r | 0 <= r < |x| :: x[r] == (a, b)
      {
        if (a, b) == (i, j) {
          assert x[|idx|] == (a, b);
        } else {
          var r :| 0 <= r < |idx| && idx[r] == (a, b);
          assert x[r] == (a, b);
        }
      }
    }

    lemma PairsSkip(target: Position, ps: seq<Position>, ks: seq<Key>,
                    causedBy: seq<ConstraintRelationship>, idx: seq<(int, int)>, i: int, j: int)
      requires 0 <= i < j < |ps|
      requires PairsInvariant(target, ps, ks, causedBy, idx, i, j)
      requires !OnPairLine(target, ps, i, j)
      ensures PairsInvariant(target, ps, ks, causedBy, idx, i, j + 1)
    {
    }

    lemma PairsRowEnd(target: Position, ps: seq<Position>, ks: seq<Key>,
                      causedBy: seq<ConstraintRelationship>, idx: seq<(int, int)>, i: int)
      requires 0 <= i < |ps|
      requires PairsInvariant(target, ps, ks, causedBy, idx, i, |ps|)
      ensures PairsInvariant(target, ps, ks, causedBy, idx, i + 1, i + 2)
    {
    }

    /** Once all pairs are visited, each pair whose line holds `target` has its relationship. */
    lemma PairFound(target: Position, ps: seq<Position>, ks: seq<Key>,
                    causedBy: seq<ConstraintRelationship>, idx: seq<(int, int)>, u: int, v: int)
      requires PairsInvariant(target, ps, ks, causedBy, idx, |ps|, |ps| + 1)
      requires 0 <= u < v < |ps| && OnPairLine(target, ps, u, v)
      ensures exists r | 0 <= r < |causedBy| :: causedBy[r].neighborPair == (ps[u], ps[v])
    {
      var r :| 0 <= r < |idx| && idx[r] == (u, v);
      assert causedBy[r].neighborPair == (ps[u], ps[v]);
    }

    /** A pair of neighbours whose line holds `target` has its relationship, in one order or the other. */
    lemma PairCovered(target: Position, ps: seq<Position>, ks: seq<Key>, causedBy: seq<ConstraintRelationship>,
                      idx: seq<(int, int)>, a: Position, b: Position)
      requires AllKeys(ks) && ps == Positions(ks)
      requires PairsInvariant(target, ps, ks, causedBy, idx, |ps|, |ps| + 1)
      requires Has(ks, a) && Has(ks, b) && a != b && IsPointOnLine(target, GetLineFromTwoPoints(a, b))
      ensures exists r | 0 <= r < |causedBy| :: SamePair(causedBy[r].neighborPair, (a, b))
    {
      var u :| 0 <= u < |ks| && ks[u] == PositionToKey(a);
      var v :| 0 <= v < |ks| && ks[v] == PositionToKey(b);
      PositionToKeyInjective(ps[u], a);
      PositionToKeyInjective(ps[v], b);
      if u < v {
        assert OnPairLine(target, ps, u, v);
        PairFound(target, ps, ks, causedBy, idx, u, v);
      } else {
        assert OnPairLine(target, ps, v, u) by {
          LineSymmetric(a, b);
        }
        PairFound(target, ps, ks, causedBy, idx, v, u);
      }
    }

    /**
     * Every relationship is for a pair of neighbours, the first before the
     * second in the set, whose line holds `target`.
     */
    ghost predicate CausesSound(target: Position, ks: seq<Key>, causedBy: seq<ConstraintRelationship>) {
      forall r | 0 <= r < |causedBy| ::
        var rel := causedBy[r];
        && IsRelationship(rel, rel.neighborPair.0, rel.neighborPair.1, ks, gridSize)
        && IsPointOnLine(target, rel.line)
        && exists i, j | 0 <= i < j < |ks| ::
             ks[i] == PositionToKey(rel.neighborPair.0) && ks[j] == PositionToKey(rel.neighborPair.1)
    }

    /** Every pair of distinct neighbours whose line holds `target` has a relationship. */
    ghost predicate CausesComplete(target: Position, ks: seq<Key>, causedBy: seq<ConstraintRelationship>) {
      forall a, b | Has(ks, a) && Has(ks, b) && a != b && IsPointOnLine(target, GetLineFromTwoPoints(a, b)) ::
        exists r | 0 <= r < |causedBy| :: SamePair(causedBy[r].neighborPair, (a, b))
    }

    /** No two relationships are for the same two cells. */
    predicate CausesDistinct(causedBy: seq<ConstraintRelationship>) {
      forall r1, r2 | 0 <= r1 < r2 < |causedBy| :: !SamePair(causedBy[r1].neighborPair, causedBy[r2].neighborPair)
    }

    /** Once every pair is visited, the relationships are exactly those getForbiddenSquareInfo promises. */
    lemma PairsDone(target: Position, ks: seq<Key>, causedBy: seq<ConstraintRelationship>, idx: seq<(int, int)>)
      requires AllKeys(ks) && NoDup(ks)
      requires PairsInvariant(target, Positions(ks), ks, causedBy, idx, |ks|, |ks| + 1)
      ensures CausesSound(target, ks, causedBy)
      ensures CausesComplete(target, ks, causedBy)
      ensures CausesDistinct(causedBy)
    {
      var ps := Positions(ks);
      PairsSound(target, ps, ks, causedBy, idx);
      PairsComplete(target, ps, ks, causedBy, idx);
      PairsDistinct(target, ps, ks, causedBy, idx);
    }

    /** Every relationship built is for a pair i < j of the set whose line holds `target`. */
    lemma PairsSound(target: Position, ps: seq<Position>, ks: seq<Key>, causedBy: seq<ConstraintRelationship>,
                     idx: seq<(int, int)>)
      requires AllKeys(ks) && ps == Positions(ks)
      requires PairsInvariant(target, ps, ks, causedBy, idx, |ps|, |ps| + 1)
      ensures CausesSound(target, ks, causedBy)
    {
      forall r | 0 <= r < |causedBy|
        ensures exists i, j | 0 <= i < j < |ks| ::
          ks[i] == PositionToKey(causedBy[r].neighborPair.0) && ks[j] == PositionToKey(causedBy[r].neighborPair.1)
      {
        assert ks[idx[r].0] == PositionToKey(causedBy[r].neighborPair.0);
        assert ks[idx[r].1] == PositionToKey(causedBy[r].neighborPair.1);
      }
    }

    /** Every pair of distinct neighbours whose line holds `target` has a relationship. */
    lemma PairsComplete(target: Position, ps: seq<Position>, ks: seq<Key>, causedBy: seq<ConstraintRelationship>,
                        idx: seq<(int, int)>)
      requires AllKeys(ks) && ps == Positions(ks)
      requires PairsInvariant(target, ps, ks, causedBy, idx, |ps|, |ps| + 1)
      ensures CausesComplete(target, ks, causedBy)
    {
      forall a, b | Has(ks, a) && Has(ks, b) && a != b && IsPointOnLine(target, GetLineFromTwoPoints(a, b))
        ensures exists r | 0 <= r < |causedBy| :: SamePair(causedBy[r].neighborPair, (a, b))
      {
        PairCovered(target, ps, ks, causedBy, idx, a, b);
      }
    }

    /** No two relationships are for the same pair of cells. */
    lemma PairsDistinct(target: Position, ps: seq<Position>, ks: seq<Key>, causedBy: seq<ConstraintRelationship>,
                        idx: seq<(int, int)>)
      requires AllKeys(ks) && NoDup(ks) && ps == Positions(ks)
      requires PairsInvariant(target, ps, ks, causedBy, idx, |ps|, |ps| + 1)
      ensures CausesDistinct(causedBy)
    {
      PositionsDistinct(ks);
      forall r1, r2 | 0 <= r1 < r2 < |causedBy|
        ensures !SamePair(causedBy[r1].neighborPair, causedBy[r2].neighborPair)
      {
        assert PairLess(idx[r1], idx[r2]);
      }
    }
  }
}
