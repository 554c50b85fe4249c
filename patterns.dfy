/**
 * Preset patterns and their placement on the dense board: the truncated
 * centre of mass of a point list, the translation that puts that centre on
 * the middle cell of the board, and the constant catalog behind the menu.
 */
module Patterns {
  import opened Globals
  import opened GameLogic

  /** Number of cell columns and rows of the board. */
  const CellsCountX: int := GridWidth / CellSize
  const CellsCountY: int := GridHeight / CellSize

  /** C++ `/` on int: the quotient truncated toward zero. */
  function TruncDiv(a: int, n: int): int
    requires n > 0
  {
    if a >= 0 then a / n else -((-a) / n)
  }

  /** Sum of the x (resp. y) coordinates of the points. */
  function SumX(points: seq<Cell>): int
  {
    if points == [] then 0 else SumX(points[..|points| - 1]) + points[|points| - 1].x
  }

  function SumY(points: seq<Cell>): int
  {
    if points == [] then 0 else SumY(points[..|points| - 1]) + points[|points| - 1].y
  }

  /** The mean position of the points, each coordinate truncated toward zero. */
  function Centroid(points: seq<Cell>): Cell
    requires |points| > 0
  {
    Cell(TruncDiv(SumX(points), |points|), TruncDiv(SumY(points), |points|))
  }

  /** centerOfMass: accumulates both coordinate sums and divides by the count. */
  method CenterOfMass(points: seq<Cell>) returns (com: Cell)
    requires |points| > 0
    ensures com == Centroid(points)
  {
    var sumX, sumY := 0, 0;
    for i := 0 to |points|
      invariant sumX == SumX(points[..i]) && sumY == SumY(points[..i])
    {
      assert points[..i + 1][..i] == points[..i];
      sumX := sumX + points[i].x;
      sumY := sumY + points[i].y;
    }
    assert points[..|points|] == points;
    com := Cell(TruncDiv(sumX, |points|), TruncDiv(sumY, |points|));
  }

  /** Every point moved by the same offset `d`. */
  function Translate(points: seq<Cell>, d: Cell): (r: seq<Cell>)
    ensures |r| == |points|
    ensures forall i :: 0 <= i < |points| ==> r[i] == Cell(points[i].x + d.x, points[i].y + d.y)
  {
    seq(|points|, i requires 0 <= i < |points| => Cell(points[i].x + d.x, points[i].y + d.y))
  }

  /** The offset that carries the centre of mass `com` onto the middle cell of the board. */
  function Offset(com: Cell): Cell
  {
    Cell(CellsCountX / 2 - com.x, CellsCountY / 2 - com.y)
  }

  /** The board cells putPatternInGrid colours, in the order of `points`. */
  function Placement(points: seq<Cell>): seq<Cell>
    requires |points| > 0
  {
    Translate(points, Offset(Centroid(points)))
  }

  /**
   * putPatternInGrid: colours every translated point Live and leaves every
   * other cell as it was. The translated points must lie on the board, since
   * the grid is indexed without a bounds check.
   */
  method PutPatternInGrid(g: array2<Color>, points: seq<Cell>)
    requires |points| > 0
    requires forall q :: q in Placement(points) ==> 0 <= q.y < g.Length0 && 0 <= q.x < g.Length1
    modifies g
    ensures forall y, x :: 0 <= y < g.Length0 && 0 <= x < g.Length1 ==>
              g[y, x] == if Cell(x, y) in Placement(points) then Live else old(g[y, x])
  {
    var com := CenterOfMass(points);
    ghost var placed := Placement(points);
    // The cells coloured so far: the first i placed cells.
    ghost var painted: set<Cell> := {};
    for i := 0 to |points|
      invariant painted == FirstCells(placed, i)
      invariant forall y, x :: 0 <= y < g.Length0 && 0 <= x < g.Length1 ==>
                  g[y, x] == if Cell(x, y) in painted then Live else old(g[y, x])
    {
      var x := points[i].x + CellsCountX / 2 - com.x;
      var y := points[i].y + CellsCountY / 2 - com.y;
      assert Cell(x, y) == placed[i] && placed[i] in placed;
      FirstCellsSnoc(placed, i);
      g[y, x] := Live;
      painted := painted + {Cell(x, y)};
    }
    FirstCellsAll(placed);
  }

  /** The cells at the first i positions of s. */
  ghost function FirstCells(s: seq<Cell>, i: int): set<Cell>
    requires 0 <= i <= |s|
  {
    set j | 0 <= j < i :: s[j]
  }

  lemma FirstCellsSnoc(s: seq<Cell>, i: int)
    requires 0 <= i < |s|
    ensures FirstCells(s, i + 1) == FirstCells(s, i) + {s[i]}
  {
    assert s[i] in FirstCells(s, i + 1);
  }

  lemma FirstCellsAll(s: seq<Cell>)
    ensures forall q :: q in FirstCells(s, |s|) <==> q in s
  {
  }

  /** Placement moves every point by one common offset, so the pattern keeps its shape. */
  lemma PlacementKeepsShape(points: seq<Cell>, i: int, j: int)
    requires 0 <= i < |points| && 0 <= j < |points|
    ensures Placement(points)[i].x - Placement(points)[j].x == points[i].x - points[j].x
    ensures Placement(points)[i].y - Placement(points)[j].y == points[i].y - points[j].y
  {
  }

  /** A one-point pattern lands exactly on the middle cell of the board. */
  lemma SinglePointLandsAtCentre(p: Cell)
    ensures Placement([p]) == [Cell(CellsCountX / 2, CellsCountY / 2)]
  {
    assert [p][..0] == [];
    assert SumX([p]) == p.x && SumY([p]) == p.y;
    assert TruncDiv(p.x, 1) == p.x && TruncDiv(p.y, 1) == p.y;
  }

  /** Multiplying by a positive count preserves <=. */
  lemma MulLe(s: int, t: int, n: int)
    requires s <= t && 0 < n
    ensures n * s <= n * t
  {
    assert n * t - n * s == n * (t - s);
  }

  /** Euclidean division: a quotient bounded by `lo` and `hi` when the dividend is n*lo..n*hi. */
  lemma DivBounds(s: int, n: int, lo: int, hi: int)
    requires n > 0 && n * lo <= s <= n * hi
    ensures lo <= s / n <= hi
  {
    var q, r := s / n, s % n;
    assert s == n * q + r && 0 <= r < n;
    if q < lo {
      MulLe(q, lo - 1, n);
      assert false;
    }
    if q > hi {
      MulLe(hi + 1, q, n);
      assert false;
    }
  }

  /** Truncating division keeps the same bounds. */
  lemma TruncDivBounds(s: int, n: int, lo: int, hi: int)
    requires n > 0 && n * lo <= s <= n * hi
    ensures lo <= TruncDiv(s, n) <= hi
  {
    if s >= 0 {
      DivBounds(s, n, lo, hi);
    } else {
      assert n * -hi <= -s <= n * -lo;
      DivBounds(-s, n, -hi, -lo);
    }
  }

  /** Sums of coordinates that lie in [lo, hi] lie in [n*lo, n*hi]. */
  lemma {:induction false} SumBounds(points: seq<Cell>, lo: int, hi: int)
    requires forall i :: 0 <= i < |points| ==> lo <= points[i].x <= hi && lo <= points[i].y <= hi
    ensures |points| * lo <= SumX(points) <= |points| * hi
    ensures |points| * lo <= SumY(points) <= |points| * hi
  {
    if points != [] {
      var n := |points|;
      SumBounds(points[..n - 1], lo, hi);
      StepBounds(n, lo, hi, SumX(points[..n - 1]), points[n - 1].x);
      StepBounds(n, lo, hi, SumY(points[..n - 1]), points[n - 1].y);
    }
  }

  /** One more term in [lo, hi] moves the bounds of a sum of n - 1 terms to those of n terms. */
  lemma StepBounds(n: int, lo: int, hi: int, s: int, v: int)
    requires (n - 1) * lo <= s <= (n - 1) * hi && lo <= v <= hi
    ensures n * lo <= s + v <= n * hi
  {
    assert n * lo == (n - 1) * lo + lo && n * hi == (n - 1) * hi + hi;
  }

  /** The centre of mass of points inside a square box lies inside that box. */
  lemma CentroidInBox(points: seq<Cell>, lo: int, hi: int)
    requires |points| > 0
    requires forall p :: p in points ==> lo <= p.x <= hi && lo <= p.y <= hi
    ensures lo <= Centroid(points).x <= hi && lo <= Centroid(points).y <= hi
  {
    assert forall i :: 0 <= i < |points| ==> points[i] in points;
    SumBounds(points, lo, hi);
    TruncDivBounds(SumX(points), |points|, lo, hi);
    TruncDivBounds(SumY(points), |points|, lo, hi);
  }

  /** Translating every point by `d` adds n * d to the coordinate sums. */
  lemma {:induction false} SumOfTranslate(points: seq<Cell>, d: Cell)
    ensures SumX(Translate(points, d)) == SumX(points) + |points| * d.x
    ensures SumY(Translate(points, d)) == SumY(points) + |points| * d.y
  {
    if points != [] {
      var n := |points|;
      var init := points[..n - 1];
      assert Translate(points, d)[..n - 1] == Translate(init, d);
      SumOfTranslate(init, d);
      MulStep(n, d.x);
      MulStep(n, d.y);
    }
  }

  lemma MulStep(n: int, a: int)
    ensures n * a == (n - 1) * a + a
  {
  }

  /** Coordinates that are all non-negative have non-negative sums. */
  lemma {:induction false} SumsNonNegative(points: seq<Cell>)
    requires forall i :: 0 <= i < |points| ==> 0 <= points[i].x && 0 <= points[i].y
    ensures SumX(points) >= 0 && SumY(points) >= 0
  {
    if points != [] {
      SumsNonNegative(points[..|points| - 1]);
    }
  }

  /** Euclidean quotient of s + n*k is the quotient of s plus k. */
  lemma DivShift(s: int, n: int, k: int)
    requires n > 0
    ensures (s + n * k) / n == s / n + k
  {
    var q, r := s / n, s % n;
    assert s + n * k == n * (q + k) + r;
    var q', r' := (s + n * k) / n, (s + n * k) % n;
    assert n * (q' - (q + k)) == r - r';
    if q' > q + k {
      MulLe(1, q' - (q + k), n);
      assert false;
    }
    if q' < q + k {
      MulLe(1, (q + k) - q', n);
      assert false;
    }
  }

  /**
   * Along one axis: a non-negative coordinate sum s of n points, shifted by
   * n * (m - s / n), has truncated mean m.
   */
  lemma PlacedAxis(s: int, n: int, m: int)
    requires s >= 0 && n > 0 && m >= 0
    ensures TruncDiv(s + n * (m - TruncDiv(s, n)), n) == m
  {
    var q, r := s / n, s % n;
    assert s + n * (m - q) == r + n * m;
    DivShift(r, n, m);
    assert r / n == 0;
  }

  /**
   * For a pattern in the non-negative quadrant (every catalog pattern), the
   * placed copy has its centre of mass exactly on the middle cell of the board.
   */
  lemma PlacedCentroidIsBoardCentre(points: seq<Cell>)
    requires |points| > 0
    requires forall p :: p in points ==> 0 <= p.x && 0 <= p.y
    ensures Centroid(Placement(points)) == Cell(CellsCountX / 2, CellsCountY / 2)
  {
    var n := |points|;
    assert forall i :: 0 <= i < n ==> points[i] in points;
    SumsNonNegative(points);
    SumOfTranslate(points, Offset(Centroid(points)));
    PlacedAxis(SumX(points), n, CellsCountX / 2);
    PlacedAxis(SumY(points), n, CellsCountY / 2);
  }

  /** A preset: its menu name and its live cells, relative to its own corner. */
  datatype Pattern = Pattern(name: string, points: seq<Cell>)

  // Still lifes
  const Block: seq<Cell> :=
    [Cell(0, 0), Cell(0, 1), Cell(1, 0), Cell(1, 1)]
  const BeeHive: seq<Cell> :=
    [Cell(1, 0), Cell(2, 0), Cell(0, 1), Cell(3, 1), Cell(1, 2), Cell(2, 2)]
  const HoneyFarm: seq<Cell> :=
    [Cell(0, 6), Cell(1, 7), Cell(2, 7), Cell(1, 5), Cell(2, 5), Cell(3, 6), Cell(9, 6),
     Cell(10, 5), Cell(11, 5), Cell(12, 6), Cell(11, 7), Cell(10, 7), Cell(6, 3), Cell(5, 2),
     Cell(5, 1), Cell(6, 0), Cell(7, 1), Cell(7, 2), Cell(6, 9), Cell(5, 10), Cell(5, 11),
     Cell(6, 12), Cell(7, 11), Cell(7, 10)]
  const Loaf: seq<Cell> :=
    [Cell(1, 0), Cell(2, 0), Cell(0, 1), Cell(1, 2), Cell(2, 3), Cell(3, 2), Cell(3, 1)]
  const Bakery: seq<Cell> :=
    [Cell(0, 4), Cell(4, 0), Cell(0, 5), Cell(5, 0), Cell(6, 1), Cell(5, 2), Cell(4, 3),
     Cell(3, 4), Cell(2, 5), Cell(1, 6), Cell(1, 3), Cell(2, 3), Cell(3, 1), Cell(3, 2),
     Cell(8, 3), Cell(7, 4), Cell(6, 5), Cell(5, 6), Cell(4, 7), Cell(3, 8), Cell(4, 9),
     Cell(5, 9), Cell(9, 4), Cell(9, 5), Cell(8, 6), Cell(7, 6), Cell(6, 8), Cell(6, 7)]
  const Boat: seq<Cell> :=
    [Cell(0, 0), Cell(1, 0), Cell(0, 1), Cell(1, 2), Cell(2, 1)]
  const Ship: seq<Cell> :=
    [Cell(0, 0), Cell(0, 1), Cell(1, 0), Cell(1, 2), Cell(2, 2), Cell(2, 1)]
  const Tub: seq<Cell> :=
    [Cell(1, 0), Cell(0, 1), Cell(1, 2), Cell(2, 1)]

  // Oscillators
  const Blinker: seq<Cell> :=
    [Cell(0, 0), Cell(0, 1), Cell(0, 2)]
  const Toad: seq<Cell> :=
    [Cell(0, 1), Cell(1, 1), Cell(2, 1), Cell(1, 0), Cell(2, 0), Cell(3, 0)]
  const Beacon: seq<Cell> :=
    [Cell(0, 0), Cell(0, 1), Cell(1, 1), Cell(1, 0), Cell(2, 2), Cell(3, 2), Cell(3, 3),
     Cell(2, 3)]
  const Pulsar: seq<Cell> :=
    [Cell(0, 2), Cell(0, 3), Cell(0, 4), Cell(2, 0), Cell(3, 0), Cell(4, 0), Cell(5, 2),
     Cell(5, 3), Cell(5, 4), Cell(4, 5), Cell(3, 5), Cell(2, 5), Cell(7, 4), Cell(7, 3),
     Cell(7, 2), Cell(8, 0), Cell(9, 0), Cell(10, 0), Cell(8, 5), Cell(9, 5), Cell(10, 5),
     Cell(12, 4), Cell(12, 3), Cell(12, 2), Cell(8, 7), Cell(9, 7), Cell(10, 7), Cell(7, 8),
     Cell(7, 9), Cell(7, 10), Cell(8, 12), Cell(9, 12), Cell(10, 12), Cell(12, 8), Cell(12, 9),
     Cell(12, 10), Cell(4, 7), Cell(3, 7), Cell(2, 7), Cell(5, 8), Cell(5, 9), Cell(5, 10),
     Cell(0, 8), Cell(0, 9), Cell(0, 10), Cell(4, 12), Cell(3, 12), Cell(2, 12)]
  const PentaDecathlon: seq<Cell> :=
    [Cell(0, 1), Cell(0, 2), Cell(1, 0), Cell(2, 0), Cell(3, 0), Cell(4, 1), Cell(4, 2),
     Cell(3, 3), Cell(2, 3), Cell(1, 3), Cell(1, 8), Cell(2, 8), Cell(3, 8), Cell(4, 9),
     Cell(4, 10), Cell(3, 11), Cell(2, 11), Cell(1, 11), Cell(0, 10), Cell(0, 9)]
  const Cross: seq<Cell> :=
    [Cell(0, 2), Cell(1, 2), Cell(2, 2), Cell(2, 1), Cell(2, 0), Cell(3, 0), Cell(4, 0),
     Cell(5, 0), Cell(5, 1), Cell(5, 2), Cell(6, 2), Cell(7, 2), Cell(7, 3), Cell(7, 4),
     Cell(7, 5), Cell(6, 5), Cell(5, 5), Cell(5, 6), Cell(5, 7), Cell(4, 7), Cell(3, 7),
     Cell(2, 7), Cell(2, 6), Cell(2, 5), Cell(1, 5), Cell(0, 5), Cell(0, 4), Cell(0, 3)]
  const Star: seq<Cell> :=
    [Cell(0, 5), Cell(5, 0), Cell(1, 6), Cell(1, 5), Cell(1, 4), Cell(2, 4), Cell(2, 3),
     Cell(2, 2), Cell(3, 2), Cell(4, 2), Cell(4, 1), Cell(5, 1), Cell(6, 1), Cell(6, 2),
     Cell(7, 2), Cell(8, 2), Cell(8, 3), Cell(8, 4), Cell(9, 4), Cell(9, 5), Cell(9, 6),
     Cell(10, 5), Cell(8, 6), Cell(8, 7), Cell(8, 8), Cell(7, 8), Cell(6, 8), Cell(6, 9),
     Cell(5, 9), Cell(4, 9), Cell(5, 10), Cell(4, 8), Cell(3, 8), Cell(2, 8), Cell(2, 7),
     Cell(2, 6)]
  const Clock: seq<Cell> :=
    [Cell(0, 4), Cell(1, 4), Cell(1, 5), Cell(0, 5), Cell(6, 0), Cell(7, 0), Cell(7, 1),
     Cell(6, 1), Cell(7, 3), Cell(6, 3), Cell(5, 3), Cell(4, 3), Cell(3, 4), Cell(3, 5),
     Cell(3, 6), Cell(3, 7), Cell(4, 8), Cell(5, 8), Cell(6, 8), Cell(7, 8), Cell(8, 7),
     Cell(8, 6), Cell(8, 5), Cell(8, 4), Cell(5, 6), Cell(5, 5), Cell(6, 4), Cell(4, 10),
     Cell(4, 11), Cell(5, 11), Cell(5, 10), Cell(10, 7), Cell(10, 6), Cell(11, 6), Cell(11, 7)]
  const KoksGalaxy: seq<Cell> :=
    [Cell(0, 0), Cell(0, 1), Cell(0, 2), Cell(0, 3), Cell(0, 4), Cell(0, 5), Cell(1, 5),
     Cell(1, 4), Cell(1, 3), Cell(1, 2), Cell(1, 1), Cell(1, 0), Cell(3, 0), Cell(4, 0),
     Cell(5, 0), Cell(6, 0), Cell(7, 0), Cell(8, 0), Cell(8, 1), Cell(7, 1), Cell(6, 1),
     Cell(5, 1), Cell(4, 1), Cell(3, 1), Cell(0, 7), Cell(1, 7), Cell(2, 7), Cell(3, 7),
     Cell(4, 7), Cell(5, 7), Cell(5, 8), Cell(4, 8), Cell(3, 8), Cell(2, 8), Cell(1, 8),
     Cell(0, 8), Cell(7, 8), Cell(7, 7), Cell(8, 7), Cell(8, 8), Cell(7, 6), Cell(7, 5),
     Cell(7, 4), Cell(7, 3), Cell(8, 3), Cell(8, 4), Cell(8, 5), Cell(8, 6)]
  const Octagon: seq<Cell> :=
    [Cell(0, 3), Cell(3, 0), Cell(4, 0), Cell(0, 4), Cell(1, 5), Cell(2, 6), Cell(3, 7),
     Cell(4, 7), Cell(5, 6), Cell(6, 5), Cell(7, 4), Cell(7, 3), Cell(6, 2), Cell(5, 1),
     Cell(2, 1), Cell(1, 2)]
  const FrenchKiss: seq<Cell> :=
    [Cell(0, 9), Cell(1, 9), Cell(1, 8), Cell(1, 7), Cell(2, 6), Cell(3, 7), Cell(4, 7),
     Cell(5, 6), Cell(5, 5), Cell(3, 4), Cell(3, 3), Cell(4, 2), Cell(5, 2), Cell(6, 3),
     Cell(7, 2), Cell(7, 1), Cell(7, 0), Cell(8, 0)]
  const Fumarole: seq<Cell> :=
    [Cell(0, 5), Cell(0, 6), Cell(1, 6), Cell(2, 5), Cell(2, 4), Cell(1, 3), Cell(1, 2),
     Cell(2, 2), Cell(3, 1), Cell(4, 1), Cell(5, 2), Cell(6, 2), Cell(6, 3), Cell(5, 4),
     Cell(5, 5), Cell(6, 6), Cell(7, 6), Cell(7, 5)]
  const Pentoad: seq<Cell> :=
    [Cell(0, 11), Cell(1, 11), Cell(1, 10), Cell(1, 9), Cell(2, 8), Cell(3, 8), Cell(3, 9),
     Cell(6, 7), Cell(7, 7), Cell(6, 6), Cell(6, 5), Cell(6, 4), Cell(5, 4), Cell(9, 3),
     Cell(9, 2), Cell(10, 3), Cell(11, 2), Cell(11, 1), Cell(11, 0), Cell(12, 0)]

  // Spaceships
  const Glider: seq<Cell> :=
    [Cell(0, 0), Cell(2, 0), Cell(1, 2), Cell(1, 1), Cell(2, 1)]
  const LightWeightSpaceship: seq<Cell> :=
    [Cell(0, 1), Cell(1, 0), Cell(2, 0), Cell(3, 0), Cell(4, 0), Cell(4, 1), Cell(4, 2),
     Cell(3, 3), Cell(0, 3)]
  const MiddleWeightSpaceship: seq<Cell> :=
    [Cell(0, 1), Cell(0, 3), Cell(1, 4), Cell(2, 4), Cell(3, 4), Cell(4, 4), Cell(5, 4),
     Cell(5, 3), Cell(5, 2), Cell(4, 1), Cell(2, 0)]
  const HeavyWeightSpaceship: seq<Cell> :=
    [Cell(0, 1), Cell(0, 3), Cell(2, 0), Cell(3, 0), Cell(5, 1), Cell(6, 2), Cell(6, 3),
     Cell(6, 4), Cell(5, 4), Cell(4, 4), Cell(3, 4), Cell(2, 4), Cell(1, 4)]

  // Guns
  const GosperGliderGun: seq<Cell> :=
    [Cell(0, 4), Cell(1, 4), Cell(1, 5), Cell(0, 5), Cell(10, 4), Cell(10, 5), Cell(10, 6),
     Cell(11, 3), Cell(12, 2), Cell(13, 2), Cell(11, 7), Cell(12, 8), Cell(13, 8), Cell(14, 5),
     Cell(15, 3), Cell(15, 7), Cell(16, 6), Cell(16, 5), Cell(16, 4), Cell(17, 5), Cell(22, 5),
     Cell(21, 4), Cell(20, 4), Cell(20, 3), Cell(21, 3), Cell(21, 2), Cell(20, 2), Cell(22, 1),
     Cell(24, 1), Cell(24, 0), Cell(24, 5), Cell(24, 6), Cell(34, 2), Cell(35, 2), Cell(35, 3),
     Cell(34, 3)]
  const SimkinGliderGun: seq<Cell> :=
    [Cell(0, 0), Cell(1, 0), Cell(1, 1), Cell(0, 1), Cell(7, 0), Cell(8, 0), Cell(8, 1),
     Cell(7, 1), Cell(5, 3), Cell(4, 3), Cell(4, 4), Cell(5, 4), Cell(21, 10), Cell(22, 9),
     Cell(23, 9), Cell(21, 11), Cell(21, 12), Cell(22, 12), Cell(23, 12), Cell(25, 9), Cell(26, 9),
     Cell(27, 10), Cell(28, 11), Cell(27, 12), Cell(26, 13), Cell(31, 11), Cell(32, 11),
     Cell(32, 12), Cell(31, 12), Cell(21, 17), Cell(20, 17), Cell(20, 18), Cell(21, 19),
     Cell(22, 19), Cell(23, 19), Cell(23, 20)]

  /** numToPattern: menu number k in [2, 28] to its pattern; 0 and 1 have none (1 is the custom mode). */
  const NumToPattern: seq<Option<Pattern>> := [
    None, None,
    Some(Pattern("Block", Block)),
    Some(Pattern("Bee hive", BeeHive)),
    Some(Pattern("Honey farm", HoneyFarm)),
    Some(Pattern("Loaf", Loaf)),
    Some(Pattern("Bakery", Bakery)),
    Some(Pattern("Boat", Boat)),
    Some(Pattern("Ship", Ship)),
    Some(Pattern("Tub", Tub)),
    Some(Pattern("Blinker", Blinker)),
    Some(Pattern("Toad", Toad)),
    Some(Pattern("Beacon", Beacon)),
    Some(Pattern("Pulsar", Pulsar)),
    Some(Pattern("Penta_decathlon", PentaDecathlon)),
    Some(Pattern("Cross", Cross)),
    Some(Pattern("Star", Star)),
    Some(Pattern("Clock", Clock)),
    Some(Pattern("Kok's galaxy", KoksGalaxy)),
    Some(Pattern("Octagon", Octagon)),
    Some(Pattern("French kiss", FrenchKiss)),
    Some(Pattern("Fumarole", Fumarole)),
    Some(Pattern("Pentoad", Pentoad)),
    Some(Pattern("Glider", Glider)),
    Some(Pattern("Light weight spaceship", LightWeightSpaceship)),
    Some(Pattern("Middle weight spaceship", MiddleWeightSpaceship)),
    Some(Pattern("Heavy weight spaceship", HeavyWeightSpaceship)),
    Some(Pattern("Gosper's glider gun", GosperGliderGun)),
    Some(Pattern("Simkin's glider gun", SimkinGliderGun))
  ]

  /** All coordinates of the points lie in [0, hi]. */
  predicate InBox(points: seq<Cell>, hi: int)
  {
    forall p :: p in points ==> 0 <= p.x <= hi && 0 <= p.y <= hi
  }

  /**
   * The catalog has 29 entries: none for 0 and 1 (1 is the custom mode), and
   * a non-empty pattern for every menu number from 2 to 28, in menu order.
   */
  lemma CatalogShape()
    ensures |NumToPattern| == 29
    ensures NumToPattern[0] == None && NumToPattern[1] == None
    ensures forall k :: 2 <= k < |NumToPattern| ==>
              NumToPattern[k].Some? && |NumToPattern[k].value.points| > 0
    ensures NumToPattern[2].value.name == "Block" && NumToPattern[10].value.name == "Blinker"
    ensures NumToPattern[23].value.name == "Glider" && NumToPattern[28].value.name == "Simkin's glider gun"
  {
  }

  /**
   * A pattern drawn inside the corner box [0, hi] x [0, hi], with hi at most
   * half the board height, is placed entirely on the board of CellsCountY
   * rows and CellsCountX columns, so the unchecked indexing is safe.
   */
  lemma PlacementFitsBoard(points: seq<Cell>, hi: int)
    requires |points| > 0 && InBox(points, hi) && hi <= CellsCountY / 2
    ensures forall q :: q in Placement(points) ==> 0 <= q.x < CellsCountX && 0 <= q.y < CellsCountY
  {
    GridIsWholeCells();
    assert CellsCountX / 2 == 2424 && CellsCountY / 2 == 1363;
    CentroidInBox(points, 0, hi);
    var c := Centroid(points);
    var d := Offset(c);
    assert d == Cell(2424 - c.x, 1363 - c.y);
    var placed := Translate(points, d);
    forall q | q in placed
      ensures 0 <= q.x < CellsCountX && 0 <= q.y < CellsCountY
    {
      var i :| 0 <= i < |points| && placed[i] == q;
      var p := points[i];
      assert p in points;
      assert q == Cell(p.x + d.x, p.y + d.y);
    }
  }
}
