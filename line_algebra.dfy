// The exact integer line representation of the collinearity engine
// (src/game/engine/LineDetector.ts: getLineFromTwoPoints, isPointOnLine,
// gcd) and what it guarantees: both defining points lie on their line, the
// line does not depend on the order of the points, and a point lies on the
// line through two distinct cells exactly when the three are collinear.
module LineAlgebra {
  import opened Grid

  /**
   * A line through two grid cells.  A general line has slope rise/run with
   * run > 0 and y-intercept yIntWhole + yIntNum/yIntDenom; a vertical line
   * is rise = 1, run = 0 with its column in yIntWhole; a horizontal line is
   * rise = 0, run = 1 with its row in yIntWhole.
   */
  datatype Line = Line(rise: int, run: int, yIntWhole: int, yIntNum: int, yIntDenom: int)

  function Abs(x: int): nat {
    if x < 0 then -x else x
  }

  /** Euclid's algorithm: the recursion that the `gcd` loop runs. */
  function Gcd(a: nat, b: nat): (g: nat)
    ensures a > 0 || b > 0 ==> g > 0
    decreases b
  {
    if b == 0 then a else Gcd(b, a % b)
  }

  predicate IsVertical(line: Line) {
    line.rise == 1 && line.run == 0
  }

  predicate IsHorizontal(line: Line) {
    line.rise == 0 && line.run == 1
  }

  /** Direction normalisation: run > 0, or run = 0 and rise > 0. */
  function Normalize(rise: int, run: int): (int, int) {
    if run < 0 || (run == 0 && rise < 0) then (-rise, -run) else (rise, run)
  }

  /**
   * The line of slope rise/run through `pos1`, its y-intercept
   * (pos1.row * run - rise * pos1.col) / run split into a floored whole
   * part and a non-negative proper fraction.  JavaScript's
   * `Math.floor(n / d)` and `((n % d) + d) % d` are Dafny's `n / d` and
   * `n % d` here because d = run > 0.
   */
  function InterceptLine(pos1: Position, rise: int, run: int): Line
    requires run > 0
  {
    var numerator := pos1.row * run - rise * pos1.col;
    var denominator := run;
    Line(rise, run, numerator / denominator, ((numerator % denominator) + denominator) % denominator, Abs(denominator))
  }

  /** getLineFromTwoPoints: the line through two cells, in exact integers. */
  function GetLineFromTwoPoints(pos1: Position, pos2: Position): Line {
    var deltaX := pos2.col - pos1.col;
    var deltaY := pos2.row - pos1.row;
    if deltaX == 0 then Line(1, 0, pos1.col, 0, 1)
    else if deltaY == 0 then Line(0, 1, pos1.row, 0, 1)
    else
      var g := Gcd(Abs(deltaY), Abs(deltaX));
      GcdDivides(Abs(deltaY), Abs(deltaX));
      ExactDivision(deltaY, g);
      ExactDivision(deltaX, g);
      var (rise, run) := Normalize(deltaY / g, deltaX / g);
      InterceptLine(pos1, rise, run)
  }

  /** isPointOnLine: membership by cross-multiplication, without division. */
  predicate IsPointOnLine(pos: Position, line: Line) {
    if IsVertical(line) then pos.col == line.yIntWhole
    else if IsHorizontal(line) then pos.row == line.yIntWhole
    else
      pos.row * line.run * line.yIntDenom
      == line.rise * pos.col * line.yIntDenom + line.yIntWhole * line.run * line.yIntDenom + line.yIntNum * line.run
  }

  /** Three cells are collinear: the cross product of b - a and c - a is zero. */
  predicate Collinear(a: Position, b: Position, c: Position) {
    (b.row - a.row) * (c.col - a.col) == (c.row - a.row) * (b.col - a.col)
  }

  // ---------------------------------------------------------------------
  // Arithmetic

  /** Division with remainder has exactly one answer. */
  lemma DivModUnique(n: int, d: int, q: int, r: int)
    requires d > 0 && 0 <= r < d && n == q * d + r
    ensures n / d == q && n % d == r
  {
    var q0, r0 := n / d, n % d;
    assert (q - q0) * d == r0 - r;
    if q > q0 {
      MulAtLeast(q - q0, d);
    } else if q < q0 {
      MulAtLeast(q0 - q, d);
    }
  }

  lemma MulAtLeast(x: int, d: int)
    requires x >= 1 && d > 0
    ensures x * d >= d
  {
    assert x * d == (x - 1) * d + d;
    assert (x - 1) * d >= 0;
  }

  /** Cancelling a non-zero factor. */
  lemma MulCancel(x: int, y: int, k: int)
    requires k != 0
    ensures x * k == y * k <==> x == y
  {
    if x * k == y * k {
      assert (x - y) * k == 0;
    }
  }

  /** When `g` divides `|x|` exactly, `x / g` is exact and `|x / g| == |x| / g`. */
  lemma ExactDivision(x: int, g: nat)
    requires g > 0 && Abs(x) % g == 0
    ensures x == g * (x / g) && Abs(x / g) == Abs(x) / g
  {
    var q := Abs(x) / g;
    assert Abs(x) == q * g;
    if x < 0 {
      DivModUnique(x, g, -q, 0);
    }
  }

  /** Scaling both operands scales the remainder. */
  lemma ModScale(k: nat, a: nat, b: nat)
    requires k > 0 && b > 0
    ensures (k * a) % (k * b) == k * (a % b)
  {
    var q, r := a / b, a % b;
    assert a == q * b + r;
    assert k * a == q * (k * b) + k * r;
    assert k * r < k * b;
    DivModUnique(k * a, k * b, q, k * r);
  }

  /** If `g` divides `x` and `y`, it divides `q * x + y`. */
  lemma DividesCombination(g: nat, x: int, y: int, q: int)
    requires g > 0 && x % g == 0 && y % g == 0
    ensures (q * x + y) % g == 0
  {
    var x', y' := x / g, y / g;
    assert x == x' * g && y == y' * g;
    assert q * x + y == (q * x' + y') * g;
    DivModUnique(q * x + y, g, q * x' + y', 0);
  }

  // ---------------------------------------------------------------------
  // The greatest common divisor

  /** The gcd divides both arguments. */
  lemma {:induction false} GcdDivides(a: nat, b: nat)
    requires a > 0 || b > 0
    ensures a % Gcd(a, b) == 0 && b % Gcd(a, b) == 0
    decreases b
  {
    if b == 0 {
      assert a % a == 0 by { DivModUnique(a, a, 1, 0); }
      assert 0 % a == 0 by { DivModUnique(0, a, 0, 0); }
    } else {
      GcdDivides(b, a % b);
      var g := Gcd(a, b);
      assert a == (a / b) * b + a % b;
      DividesCombination(g, b, a % b, a / b);
    }
  }

  /** gcd(k*a, k*b) == k * gcd(a, b). */
  lemma {:induction false} GcdScale(k: nat, a: nat, b: nat)
    requires k > 0
    ensures Gcd(k * a, k * b) == k * Gcd(a, b)
    decreases b
  {
    if b > 0 {
      ModScale(k, a, b);
      GcdScale(k, b, a % b);
    }
  }

  /** Dividing two positive numbers by their gcd leaves coprime numbers. */
  lemma GcdReduced(a: nat, b: nat)
    requires a > 0 && b > 0
    ensures Gcd(a / Gcd(a, b), b / Gcd(a, b)) == 1
  {
    var g := Gcd(a, b);
    GcdDivides(a, b);
    var a', b' := a / g, b / g;
    assert a == g * a' by { ExactDivision(a, g); }
    assert b == g * b' by { ExactDivision(b, g); }
    var h := Gcd(a', b');
    assert g * h == g * 1 by { GcdScale(g, a', b'); }
    MulCancel(h, 1, g);
  }

  // ---------------------------------------------------------------------
  // Properties of the line through two cells

  /**
   * The general case spelled out: the normalised direction is the
   * difference vector divided by the gcd up to sign, so it has the same
   * slope; and the intercept fraction is proper and adds up to the
   * intercept numerator.
   */
  lemma GeneralLine(pos1: Position, pos2: Position)
    requires pos2.col != pos1.col && pos2.row != pos1.row
    ensures var l := GetLineFromTwoPoints(pos1, pos2);
      && l.run > 0 && l.rise != 0
      && l.rise * (pos2.col - pos1.col) == (pos2.row - pos1.row) * l.run
      && l.yIntDenom == l.run && 0 <= l.yIntNum < l.run
      && l.yIntWhole * l.run + l.yIntNum == pos1.row * l.run - l.rise * pos1.col
      && Abs(l.rise) == Abs(pos2.row - pos1.row) / Gcd(Abs(pos2.row - pos1.row), Abs(pos2.col - pos1.col))
      && l.run == Abs(pos2.col - pos1.col) / Gcd(Abs(pos2.row - pos1.row), Abs(pos2.col - pos1.col))
  {
    var l := GetLineFromTwoPoints(pos1, pos2);
    ReducedDirection(pos1, pos2);
    InterceptFacts(pos1, l.rise, l.run);
  }

  /**
   * The direction of a general line: the difference vector divided by the
   * gcd of its components, turned so that run > 0.
   */
  lemma ReducedDirection(pos1: Position, pos2: Position)
    requires pos2.col != pos1.col && pos2.row != pos1.row
    ensures var l := GetLineFromTwoPoints(pos1, pos2);
      var g := Gcd(Abs(pos2.row - pos1.row), Abs(pos2.col - pos1.col));
      && l.run > 0 && l.rise != 0
      && l == InterceptLine(pos1, l.rise, l.run)
      && l.rise * (pos2.col - pos1.col) == (pos2.row - pos1.row) * l.run
      && Abs(l.rise) == Abs(pos2.row - pos1.row) / g
      && l.run == Abs(pos2.col - pos1.col) / g
  {
    var deltaX, deltaY := pos2.col - pos1.col, pos2.row - pos1.row;
    var g := Gcd(Abs(deltaY), Abs(deltaX));
    var r0, c0 := deltaY / g, deltaX / g;
    assert deltaY == g * r0 && Abs(r0) == Abs(deltaY) / g && deltaX == g * c0 && Abs(c0) == Abs(deltaX) / g by {
      GcdDivides(Abs(deltaY), Abs(deltaX));
      ExactDivision(deltaY, g);
      ExactDivision(deltaX, g);
    }
    assert c0 != 0 && r0 != 0;
    var s := if c0 < 0 then -1 else 1;
    var rise, run := s * r0, s * c0;
    assert Normalize(r0, c0) == (rise, run);
    assert rise * deltaX == deltaY * run by {
      ScaledSlope(s, g, r0, c0, deltaY, deltaX);
    }
  }

  /** The intercept of the line of slope rise/run through `pos1`, split into whole part and fraction. */
  lemma InterceptFacts(pos1: Position, rise: int, run: int)
    requires run > 0
    ensures var l := InterceptLine(pos1, rise, run);
      && l.rise == rise && l.run == run
      && l.yIntDenom == run && 0 <= l.yIntNum < run
      && l.yIntWhole * run + l.yIntNum == pos1.row * run - rise * pos1.col
  {
    InterceptSplit(pos1.row * run - rise * pos1.col, run);
  }

  /** (s*r0, s*c0) has the slope of (g*r0, g*c0). */
  lemma ScaledSlope(s: int, g: int, r0: int, c0: int, deltaY: int, deltaX: int)
    requires deltaY == g * r0 && deltaX == g * c0
    ensures (s * r0) * deltaX == deltaY * (s * c0)
  {
    assert (s * r0) * (g * c0) == (g * r0) * (s * c0);
  }

  /** Floored quotient and non-negative remainder put back together. */
  lemma InterceptSplit(n: int, d: int)
    requires d > 0
    ensures 0 <= ((n % d) + d) % d < d
    ensures (n / d) * d + ((n % d) + d) % d == n
  {
    DivModUnique(n % d + d, d, 1, n % d);
  }

  /** The shape of getLineFromTwoPoints' result, branch by branch. */
  lemma LineShape(pos1: Position, pos2: Position)
    ensures var l := GetLineFromTwoPoints(pos1, pos2);
      && (pos1.col == pos2.col ==> l == Line(1, 0, pos1.col, 0, 1))
      && (pos1.col != pos2.col && pos1.row == pos2.row ==> l == Line(0, 1, pos1.row, 0, 1))
      && (pos1.col != pos2.col && pos1.row != pos2.row ==>
            && l.run > 0 && l.rise != 0
            && Gcd(Abs(l.rise), l.run) == 1
            && 0 <= l.yIntNum < l.yIntDenom == l.run)
  {
    if pos1.col != pos2.col && pos1.row != pos2.row {
      GeneralLine(pos1, pos2);
      GcdReduced(Abs(pos2.row - pos1.row), Abs(pos2.col - pos1.col));
    }
  }

  /** The line through two cells does not depend on which comes first. */
  lemma LineSymmetric(a: Position, b: Position)
    ensures GetLineFromTwoPoints(a, b) == GetLineFromTwoPoints(b, a)
  {
    var deltaX, deltaY := b.col - a.col, b.row - a.row;
    if deltaX != 0 && deltaY != 0 {
      var l := GetLineFromTwoPoints(a, b);
      assert l == InterceptLine(a, l.rise, l.run) && GetLineFromTwoPoints(b, a) == InterceptLine(b, l.rise, l.run) by {
        SameDirection(a, b);
      }
      GeneralLine(a, b);
      SameIntercept(a.row, a.col, b.row, b.col, l.rise, l.run);
    }
  }

  /** Swapping the points negates the difference vector, which normalisation undoes. */
  lemma SameDirection(a: Position, b: Position)
    requires b.col != a.col && b.row != a.row
    ensures var l := GetLineFromTwoPoints(a, b);
      l.run > 0 && l == InterceptLine(a, l.rise, l.run) && GetLineFromTwoPoints(b, a) == InterceptLine(b, l.rise, l.run)
  {
    var deltaX, deltaY := b.col - a.col, b.row - a.row;
    var g := Gcd(Abs(deltaY), Abs(deltaX));
    assert Abs(-deltaY) == Abs(deltaY) && Abs(-deltaX) == Abs(deltaX);
    GcdDivides(Abs(deltaY), Abs(deltaX));
    var r0, c0 := deltaY / g, deltaX / g;
    assert (-deltaY) / g == -r0 by { NegatedQuotient(deltaY, g); }
    assert (-deltaX) / g == -c0 by { NegatedQuotient(deltaX, g); }
    assert c0 != 0 by { ExactDivision(deltaX, g); }
    var (rise, run) := Normalize(r0, c0);
    assert Normalize(-r0, -c0) == (rise, run);
  }

  /** Two points on one slope give the same intercept numerator. */
  lemma SameIntercept(row1: int, col1: int, row2: int, col2: int, rise: int, run: int)
    requires rise * (col2 - col1) == (row2 - row1) * run
    ensures row2 * run - rise * col2 == row1 * run - rise * col1
  {
    assert rise * (col2 - col1) == rise * col2 - rise * col1;
    assert (row2 - row1) * run == row2 * run - row1 * run;
  }

  /** Exact division commutes with negation. */
  lemma NegatedQuotient(x: int, g: nat)
    requires g > 0 && Abs(x) % g == 0
    ensures (-x) / g == -(x / g)
  {
    ExactDivision(x, g);
    assert Abs(-x) == Abs(x);
    ExactDivision(-x, g);
    assert g * ((-x) / g) == g * (-(x / g));
    MulCancel((-x) / g, -(x / g), g);
  }

  /** Both defining cells lie on their line. */
  lemma EndpointsOnLine(a: Position, b: Position)
    ensures IsPointOnLine(a, GetLineFromTwoPoints(a, b))
    ensures IsPointOnLine(b, GetLineFromTwoPoints(a, b))
  {
    if a.col != b.col && a.row != b.row {
      OnGeneralLine(a, b, a);
      OnGeneralLine(a, b, b);
      var l := GetLineFromTwoPoints(a, b);
      GeneralLine(a, b);
    }
  }

  /**
   * For a general line, the cross-multiplied test is the point-slope
   * equation (row - row1) * run == rise * (col - col1).
   */
  lemma OnGeneralLine(a: Position, b: Position, c: Position)
    requires a.col != b.col && a.row != b.row
    ensures var l := GetLineFromTwoPoints(a, b);
      IsPointOnLine(c, l) <==> (c.row - a.row) * l.run == l.rise * (c.col - a.col)
  {
    var l := GetLineFromTwoPoints(a, b);
    GeneralLine(a, b);
    assert !IsVertical(l) && !IsHorizontal(l);
    CrossMultiplied(c.row, c.col, l.rise, l.run, l.yIntWhole, l.yIntNum, a.row, a.col);
  }

  /**
   * The cross-multiplied equation of a general line through (row1, col1)
   * with intercept whole + num/run is its point-slope equation.
   */
  lemma CrossMultiplied(row: int, col: int, rise: int, run: int, whole: int, num: int, row1: int, col1: int)
    requires run > 0 && whole * run + num == row1 * run - rise * col1
    ensures row * run * run == rise * col * run + whole * run * run + num * run
        <==> (row - row1) * run == rise * (col - col1)
  {
    var k := whole * run + num;
    assert row * run * run == (row * run) * run;
    assert rise * col * run + whole * run * run + num * run == (rise * col + k) * run;
    MulCancel(row * run, rise * col + k, run);
    assert (row - row1) * run == row * run - row1 * run;
    assert rise * (col - col1) == rise * col - rise * col1;
  }

  /** Two equal slopes: x/y along (run, rise) iff along (dX, dY). */
  lemma SameSlope(x: int, y: int, rise: int, run: int, dX: int, dY: int)
    requires run != 0 && dX != 0 && rise * dX == dY * run
    ensures x * run == rise * y <==> x * dX == dY * y
  {
    if x * run == rise * y {
      assert (x * dX) * run == (dY * y) * run by {
        assert (x * dX) * run == (x * run) * dX;
        assert (dY * y) * run == y * (dY * run);
      }
      MulCancel(x * dX, dY * y, run);
    }
    if x * dX == dY * y {
      assert (x * run) * dX == (rise * y) * dX by {
        assert (x * run) * dX == (x * dX) * run;
        assert (rise * y) * dX == y * (rise * dX);
      }
      MulCancel(x * run, rise * y, dX);
    }
  }

  /**
   * A cell lies on the line through two distinct cells exactly when the
   * three are collinear.
   */
  lemma OnLineIffCollinear(a: Position, b: Position, c: Position)
    requires a != b
    ensures IsPointOnLine(c, GetLineFromTwoPoints(a, b)) <==> Collinear(a, b, c)
  {
    var deltaX, deltaY := b.col - a.col, b.row - a.row;
    if deltaX == 0 {
      assert deltaY != 0;
      MulCancel(c.col - a.col, 0, deltaY);
    } else if deltaY == 0 {
      MulCancel(c.row - a.row, 0, deltaX);
    } else {
      OnSlopedLineIffCollinear(a, b, c);
    }
  }

  lemma OnSlopedLineIffCollinear(a: Position, b: Position, c: Position)
    requires a.col != b.col && a.row != b.row
    ensures IsPointOnLine(c, GetLineFromTwoPoints(a, b)) <==> Collinear(a, b, c)
  {
    var deltaX, deltaY := b.col - a.col, b.row - a.row;
    var l := GetLineFromTwoPoints(a, b);
    assert l.run != 0 && l.rise * deltaX == deltaY * l.run by {
      ReducedDirection(a, b);
    }
    OnGeneralLine(a, b, c);
    SameSlope(c.row - a.row, c.col - a.col, l.rise, l.run, deltaX, deltaY);
  }

  // ---------------------------------------------------------------------
  // One line, one representation

  /**
   * Two pairs of distinct cells give the same `Line` value exactly when
   * all four cells are collinear: the representation is canonical.
   */
  lemma LineCanonical(a: Position, b: Position, c: Position, d: Position)
    requires a != b && c != d
    ensures GetLineFromTwoPoints(a, b) == GetLineFromTwoPoints(c, d) <==> Collinear(a, b, c) && Collinear(a, b, d)
  {
    if GetLineFromTwoPoints(a, b) == GetLineFromTwoPoints(c, d) {
      EndpointsOnLine(c, d);
      OnLineIffCollinear(a, b, c);
      OnLineIffCollinear(a, b, d);
    }
    if Collinear(a, b, c) && Collinear(a, b, d) {
      CollinearSameLine(a, b, c, d);
    }
  }

  /** Two distinct cells on the line through `a` and `b` define that same line. */
  lemma CollinearSameLine(a: Position, b: Position, c: Position, d: Position)
    requires a != b && c != d && Collinear(a, b, c) && Collinear(a, b, d)
    ensures GetLineFromTwoPoints(a, b) == GetLineFromTwoPoints(c, d)
  {
    var dX, dY := b.col - a.col, b.row - a.row;
    var dX2, dY2 := d.col - c.col, d.row - c.row;
    ParallelDifference(dX, dY, c.col - a.col, c.row - a.row, d.col - a.col, d.row - a.row);
    assert dY * dX2 == dY2 * dX;
    if dX == 0 {
      MulCancel(c.col - a.col, 0, dY);
      MulCancel(dX2, 0, dY);
    } else if dY == 0 {
      MulCancel(c.row - a.row, 0, dX);
      MulCancel(dY2, 0, dX);
    } else {
      assert dX2 != 0 && dY2 != 0 by {
        MulCancel(dY2, 0, dX);
        MulCancel(dX2, 0, dY);
      }
      var l1, l2 := GetLineFromTwoPoints(a, b), GetLineFromTwoPoints(c, d);
      ReducedDirection(a, b);
      ReducedDirection(c, d);
      LineShape(a, b);
      LineShape(c, d);
      SameSlope(dY, dX, l2.rise, l2.run, dX2, dY2);
      SameSlope(l2.rise, l2.run, l1.rise, l1.run, dX, dY);
      ReducedUnique(l1.rise, l1.run, l2.rise, l2.run);
      OnLineIffCollinear(a, b, c);
      OnGeneralLine(a, b, c);
      SameIntercept(a.row, a.col, c.row, c.col, l1.rise, l1.run);
    }
  }

  /** Two points collinear with a direction differ by a parallel vector. */
  lemma ParallelDifference(dX: int, dY: int, x1: int, y1: int, x2: int, y2: int)
    requires dY * x1 == y1 * dX && dY * x2 == y2 * dX
    ensures dY * (x2 - x1) == (y2 - y1) * dX
  {
    assert dY * (x2 - x1) == dY * x2 - dY * x1;
    assert (y2 - y1) * dX == y2 * dX - y1 * dX;
  }

  /**
   * A direction with run > 0 and coprime components is determined by its
   * slope.
   */
  lemma ReducedUnique(rise1: int, run1: int, rise2: int, run2: int)
    requires run1 > 0 && run2 > 0 && rise1 != 0 && rise2 != 0
    requires Gcd(Abs(rise1), run1) == 1 && Gcd(Abs(rise2), run2) == 1
    requires rise1 * run2 == rise2 * run1
    ensures rise1 == rise2 && run1 == run2
  {
    var p, r := Abs(rise1), Abs(rise2);
    assert rise1 > 0 <==> rise2 > 0 by {
      if rise1 > 0 { assert rise1 * run2 > 0; }
      if rise2 > 0 { assert rise2 * run1 > 0; }
    }
    assert p * run2 == r * run1 by {
      if rise1 < 0 {
        assert p * run2 == -(rise1 * run2);
        assert r * run1 == -(rise2 * run1);
      }
    }
    assert r % p == 0 by {
      DivModUnique(run1 * r, p, run2, 0);
      CoprimeDivides(p, run1, r);
    }
    assert p % r == 0 by {
      DivModUnique(run2 * p, r, run1, 0);
      CoprimeDivides(r, run2, p);
    }
    MutualDivides(p, r);
    MulCancel(run2, run1, p);
  }

  /** Euclid's lemma: a divisor of q * r coprime to q divides r. */
  lemma CoprimeDivides(p: nat, q: nat, r: nat)
    requires p > 0 && q > 0 && r > 0 && Gcd(p, q) == 1 && (q * r) % p == 0
    ensures r % p == 0
  {
    GcdScale(r, p, q);
    assert (r * p) % p == 0 by { DivModUnique(r * p, p, r, 0); }
    assert r * q == q * r;
    GcdGreatest(p, r * p, r * q);
  }

  /** Every common divisor divides the gcd. */
  lemma {:induction false} GcdGreatest(k: nat, x: nat, y: nat)
    requires k > 0 && x % k == 0 && y % k == 0
    ensures Gcd(x, y) % k == 0
    decreases y
  {
    if y > 0 {
      assert x % y == -(x / y) * y + x;
      DividesCombination(k, y, x, -(x / y));
      GcdGreatest(k, y, x % y);
    }
  }

  /** Two positive numbers that divide each other are equal. */
  lemma MutualDivides(p: nat, r: nat)
    requires p > 0 && r > 0 && r % p == 0 && p % r == 0
    ensures p == r
  {
    assert r == (r / p) * p && r / p >= 1;
    MulAtLeast(r / p, p);
    assert p == (p / r) * r && p / r >= 1;
    MulAtLeast(p / r, r);
  }
}
