/**
 * Board-wide constants and the coordinate value type shared by every other
 * module, together with the two comparison functors that the live-cell
 * containers are built on: equality (for the hashed live set) and the
 * row-major strict order (for the ordered set the pattern encoder walks).
 */
module Globals {

  /** The grid is MULTIPLE times the initial window, so that it looks unbounded. */
  const Multiple: int := 101
  const GridWidth: int := 1440 * Multiple
  const GridHeight: int := 810 * Multiple
  /** Side of one cell in world pixels; the grid dimensions must be multiples of it. */
  const CellSize: int := 30

  /** A cell position (sf::Vector2i): column x, row y. */
  datatype Cell = Cell(x: int, y: int)

  /**
   * The screen a screen's run() hands control to. Exit stands for the -1
   * returned when the window is closed; the numeric codes of the others are
   * not part of this model.
   */
  datatype Screen = Exit | AutomatonMenuScreen | PatternMenuScreen | SaveGridScreen

  /** A value that may be missing (a null pointer, an absent map entry). */
  datatype Option<T> = None | Some(value: T)

  /** pair_equal: both components agree. */
  function PairEqual(a: Cell, b: Cell): (r: bool)
    ensures r <==> a == b
  {
    a.x == b.x && a.y == b.y
  }

  /** pair_less: `a` is above `b`, or on the same row and to its left. */
  function PairLess(a: Cell, b: Cell): bool
  {
    if a.y < b.y then true
    else if a.y == b.y then a.x < b.x
    else false
  }

  /** Both grid dimensions are whole numbers of cells. */
  lemma GridIsWholeCells()
    ensures GridWidth % CellSize == 0 && GridHeight % CellSize == 0
    ensures GridWidth / CellSize == 4848 && GridHeight / CellSize == 2727
  {
  }

  /** pair_less is irreflexive, asymmetric and transitive: a strict order. */
  lemma PairLessIsStrictOrder(a: Cell, b: Cell, c: Cell)
    ensures !PairLess(a, a)
    ensures PairLess(a, b) ==> !PairLess(b, a)
    ensures PairLess(a, b) && PairLess(b, c) ==> PairLess(a, c)
  {
  }

  /**
   * Two cells are incomparable under pair_less exactly when pair_equal holds,
   * so the order is total and std::set<Cell, pair_less> identifies the same
   * cells that the hashed set does.
   */
  lemma PairLessTrichotomy(a: Cell, b: Cell)
    ensures (!PairLess(a, b) && !PairLess(b, a)) <==> PairEqual(a, b)
    ensures PairLess(a, b) || PairEqual(a, b) || PairLess(b, a)
  {
  }

  /**
   * On a board of width w the order is the order of the row-major index
   * y * w + x: this is what makes walking the ordered set a scan of the
   * board row by row, left to right.
   */
  lemma PairLessIsRowMajor(a: Cell, b: Cell, w: int)
    requires 0 <= a.x < w && 0 <= b.x < w
    ensures PairLess(a, b) <==> a.y * w + a.x < b.y * w + b.x
  {
    if a.y < b.y {
      assert a.y * w + w <= b.y * w by {
        MulMonotone(a.y + 1, b.y, w);
      }
    } else if b.y < a.y {
      assert b.y * w + w <= a.y * w by {
        MulMonotone(b.y + 1, a.y, w);
      }
    }
  }

  /** A non-empty set of integers has an element (the witness for picking one with `:|`). */
  lemma IntSetHasElement(s: set<int>)
    requires s != {}
    ensures exists e: int :: e in s
  {
    if forall e: int :: e !in s {
      assert false;
    }
  }

  /** A non-empty set of cells has an element. */
  lemma CellSetHasElement(s: set<Cell>)
    requires s != {}
    ensures exists e: Cell :: e in s
  {
    if forall e: Cell :: e !in s {
      assert false;
    }
  }

  /** Multiplying by a positive width preserves <=. */
  lemma MulMonotone(s: int, t: int, w: int)
    requires s <= t && 0 < w
    ensures s * w <= t * w
  {
    assert t * w - s * w == (t - s) * w;
  }
}
