/**
 * The pattern input screen: the user draws the initial pattern by clicking
 * cells of the sparse live set on and off. A press that turned into a drag of
 * the view toggles nothing when released.
 */
module PatternInput {
  import opened Globals

  /** The number of cells across and down the board. */
  const CellsAcross: int := GridWidth / CellSize
  const CellsDown: int := GridHeight / CellSize

  /** A world position inside the grid (not just inside the window). */
  predicate InGrid(x: int, y: int)
  {
    0 <= x < GridWidth && 0 <= y < GridHeight
  }

  /** Every live cell lies on the board. */
  predicate OnBoard(grid: set<Cell>)
  {
    forall c :: c in grid ==> 0 <= c.x < CellsAcross && 0 <= c.y < CellsDown
  }

  /** The cell an in-grid position falls in: a board cell whose square contains the position. */
  function CellAt(x: int, y: int): (c: Cell)
    requires InGrid(x, y)
    ensures 0 <= c.x < CellsAcross && 0 <= c.y < CellsDown
    ensures c.x * CellSize <= x < c.x * CellSize + CellSize
    ensures c.y * CellSize <= y < c.y * CellSize + CellSize
  {
    GridIsWholeCells();
    Cell(x / CellSize, y / CellSize)
  }

  /** Selecting or deselecting a cell: it flips, and no other cell changes. */
  function Toggle(grid: set<Cell>, c: Cell): (r: set<Cell>)
    ensures c in r <==> c !in grid
    ensures forall d :: d != c ==> (d in r <==> d in grid)
  {
    if c in grid then grid - {c} else grid + {c}
  }

  /** handleLeftClick on a world position: a position outside the grid changes nothing. */
  function Click(grid: set<Cell>, x: int, y: int): set<Cell>
  {
    if InGrid(x, y) then Toggle(grid, CellAt(x, y)) else grid
  }

  /** Clicking the same position twice restores the live set. */
  lemma ClickTwice(grid: set<Cell>, x: int, y: int)
    ensures Click(Click(grid, x, y), x, y) == grid
  {
    if InGrid(x, y) {
      var c := CellAt(x, y);
      var once := Toggle(grid, c);
      var twice := Toggle(once, c);
      assert forall d :: d in twice <==> d in grid;
    }
  }

  /** Clicks never put a cell off the board. */
  lemma ClickStaysOnBoard(grid: set<Cell>, x: int, y: int)
    requires OnBoard(grid)
    ensures OnBoard(Click(grid, x, y))
  {
    if InGrid(x, y) {
      var c := CellAt(x, y);
      forall d | d in Click(grid, x, y)
        ensures 0 <= d.x < CellsAcross && 0 <= d.y < CellsDown
      {
        if d != c {
          assert d in grid;
        }
      }
    }
  }

  /** The position lies in the square that cell `c` covers on the grid. */
  predicate InSquare(c: Cell, x: int, y: int)
  {
    c.x * CellSize <= x < c.x * CellSize + CellSize && c.y * CellSize <= y < c.y * CellSize + CellSize
  }

  /**
   * Any two positions in the square of one cell select that cell, so a
   * click at the second undoes a click at the first, whatever the live set.
   */
  lemma SameSquareSameCell(grid: set<Cell>, c: Cell, x1: int, y1: int, x2: int, y2: int)
    requires InGrid(x1, y1) && InGrid(x2, y2) && InSquare(c, x1, y1) && InSquare(c, x2, y2)
    ensures CellAt(x1, y1) == c && CellAt(x2, y2) == c
    ensures Click(Click(grid, x1, y1), x2, y2) == grid
  {
    SquareHasOneCell(CellAt(x1, y1), c, x1, y1);
    SquareHasOneCell(CellAt(x2, y2), c, x2, y2);
    ClickTwice(grid, x1, y1);
  }

  /** Cell squares do not overlap: a position lies in the square of one cell only. */
  lemma SquareHasOneCell(a: Cell, b: Cell, x: int, y: int)
    requires InSquare(a, x, y) && InSquare(b, x, y)
    ensures a == b
  {
    if a.x < b.x {
      MulMonotone(a.x + 1, b.x, CellSize);
    } else if b.x < a.x {
      MulMonotone(b.x + 1, a.x, CellSize);
    }
    if a.y < b.y {
      MulMonotone(a.y + 1, b.y, CellSize);
    } else if b.y < a.y {
      MulMonotone(b.y + 1, a.y, CellSize);
    }
  }

  datatype Key = EscapeKey | EnterKey | OtherKey

  /**
   * The events run() reacts to. A release carries the world position of the
   * pointer (the window's pixel mapped through the view and truncated to
   * integers); a move says whether the pointer is now more than half a cell
   * from where the press was.
   */
  datatype Event =
    | Closed
    | KeyPressed(key: Key)
    | ButtonPressed(left: bool)
    | ButtonReleased(left: bool, x: int, y: int)
    | MouseMoved(farFromPress: bool)
    | Other

  /** PatternInputScreen, with the shared live set and run()'s clicking/dragging flags. */
  class PatternInputScreen {
    var grid: set<Cell>
    var clicking: bool
    var dragging: bool

    /**
     * Entering run(): the clicking and dragging flags are its locals, so
     * every visit starts with no press in progress; the live set is kept.
     */
    method Start()
      modifies this
      ensures !clicking && !dragging && grid == old(grid)
    {
      clicking, dragging := false, false;
    }

    /** handleLeftClick: toggles the cell under an in-grid position. */
    method HandleLeftClick(x: int, y: int)
      modifies this
      ensures grid == Click(old(grid), x, y)
      ensures clicking == old(clicking) && dragging == old(dragging)
    {
      if 0 <= x && x < GridWidth && 0 <= y && y < GridHeight {
        var c := Cell(x / CellSize, y / CellSize);
        if c in grid {
          grid := grid - {c};
        } else {
          grid := grid + {c};
        }
      }
    }

    /**
     * One event of run()'s loop; Some(screen) when run() returns. Escape
     * drops the pattern, enter submits it; a left release toggles a cell
     * only when the press did not turn into a drag.
     */
    method HandleEvent(e: Event) returns (next: Option<Screen>)
      modifies this
      ensures OnBoard(old(grid)) ==> OnBoard(grid)
      ensures e == Closed ==> next == Some(Exit) && unchanged(this)
      ensures e == KeyPressed(EscapeKey) ==> next == Some(PatternMenuScreen) && grid == {}
      ensures e == KeyPressed(EnterKey) ==> next == Some(SaveGridScreen) && unchanged(this)
      ensures e == KeyPressed(OtherKey) || e == Other ==> next == None && unchanged(this)
      ensures e.ButtonPressed? ==>
                next == None && grid == old(grid) && dragging == old(dragging) &&
                clicking == (old(clicking) || e.left)
      ensures e.ButtonReleased? ==>
                next == None &&
                if e.left then
                  grid == (if old(dragging) then old(grid) else Click(old(grid), e.x, e.y)) &&
                  !clicking && !dragging
                else unchanged(this)
      ensures e.MouseMoved? ==>
                next == None && grid == old(grid) && clicking == old(clicking) &&
                dragging == (old(dragging) || (old(clicking) && e.farFromPress))
    {
      next := None;
      match e
      case Closed =>
        next := Some(Exit);
      case KeyPressed(key) =>
        if key == EscapeKey {
          grid := {};
          next := Some(PatternMenuScreen);
        } else if key == EnterKey {
          next := Some(SaveGridScreen);
        }
      case ButtonPressed(left) =>
        if left {
          clicking := true;
        }
      case ButtonReleased(left, x, y) =>
        if left {
          if !dragging {
            HandleLeftClick(x, y);
            if OnBoard(old(grid)) {
              ClickStaysOnBoard(old(grid), x, y);
            }
          }
          dragging := false;
          clicking := false;
        }
      case MouseMoved(far) =>
        if clicking {
          if !dragging && !far {
          } else {
            dragging := true;
          }
        }
      case Other =>
    }
  }
}
