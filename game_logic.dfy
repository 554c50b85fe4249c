/**
 * The dense board and its in-place generation step under Conway's rule
 * B3/S23.  The board is a rectangular matrix of coloured cells indexed
 * [row, column]; between generations every cell is Live or Dead.  During an
 * update two temporary colours mark pending changes: White is a cell that is
 * alive now and dies, Black a cell that is dead now and is born.
 */
module GameLogic {

  datatype Color = Live | Dead | White | Black

  /** Neighbour counting reads Live and White as alive, Dead and Black as dead. */
  predicate IsAlive(c: Color)
  {
    c == Live || c == White
  }

  /** 1 when (k, p) is a position of the board holding an alive colour, else 0. */
  function AliveAt(g: array2<Color>, k: int, p: int): nat
    reads g
  {
    if 0 <= k < g.Length0 && 0 <= p < g.Length1 && IsAlive(g[k, p]) then 1 else 0
  }

  /**
   * Reference definition of the Moore neighbourhood tally: the eight
   * positions around (i, j), each contributing only when it is on the board
   * and alive.  The cell itself is not among them.
   */
  function Neighbors(g: array2<Color>, i: int, j: int): nat
    reads g
  {
    AliveAt(g, i - 1, j - 1) + AliveAt(g, i - 1, j) + AliveAt(g, i - 1, j + 1) +
    AliveAt(g, i, j - 1) + AliveAt(g, i, j + 1) +
    AliveAt(g, i + 1, j - 1) + AliveAt(g, i + 1, j) + AliveAt(g, i + 1, j + 1)
  }

  /** Alive positions (k, q), j - 1 <= q < p, of row k of the 3x3 block around (i, j), centre excluded. */
  function RowScanned(g: array2<Color>, i: int, j: int, k: int, p: int): nat
    reads g
    decreases p - (j - 1)
  {
    if p <= j - 1 then 0
    else RowScanned(g, i, j, k, p - 1) + (if k == i && p - 1 == j then 0 else AliveAt(g, k, p - 1))
  }

  /** Alive positions in the whole rows i - 1 .. k - 1 of the block around (i, j), centre excluded. */
  function BlockScanned(g: array2<Color>, i: int, j: int, k: int): nat
    reads g
    decreases k - (i - 1)
  {
    if k <= i - 1 then 0
    else BlockScanned(g, i, j, k - 1) + RowScanned(g, i, j, k - 1, j + 2)
  }

  /** One full row of the block: its three positions, or the two beside the centre on the centre row. */
  lemma {:induction false} RowScanIsRow(g: array2<Color>, i: int, j: int, k: int)
    ensures RowScanned(g, i, j, k, j + 2) ==
            if k == i then AliveAt(g, k, j - 1) + AliveAt(g, k, j + 1)
            else AliveAt(g, k, j - 1) + AliveAt(g, k, j) + AliveAt(g, k, j + 1)
  {
    assert RowScanned(g, i, j, k, j - 1) == 0;
    assert RowScanned(g, i, j, k, j) == AliveAt(g, k, j - 1);
    assert RowScanned(g, i, j, k, j + 1) == RowScanned(g, i, j, k, j) + (if k == i then 0 else AliveAt(g, k, j));
  }

  /** Scanning the three rows of the block, skipping the centre, yields exactly the neighbour tally. */
  lemma {:induction false} BlockScanIsNeighbors(g: array2<Color>, i: int, j: int)
    ensures BlockScanned(g, i, j, i + 2) == Neighbors(g, i, j)
  {
    RowScanIsRow(g, i, j, i - 1);
    RowScanIsRow(g, i, j, i);
    RowScanIsRow(g, i, j, i + 1);
    assert BlockScanned(g, i, j, i - 1) == 0;
    assert BlockScanned(g, i, j, i) == RowScanned(g, i, j, i - 1, j + 2);
    assert BlockScanned(g, i, j, i + 1) == BlockScanned(g, i, j, i) + RowScanned(g, i, j, i, j + 2);
    assert BlockScanned(g, i, j, i + 2) == BlockScanned(g, i, j, i + 1) + RowScanned(g, i, j, i + 1, j + 2);
  }

  /**
   * numOfNeighbors: counts the alive cells among the eight neighbours of
   * (i, j); positions off the board are skipped, not wrapped.
   */
  method NumOfNeighbors(g: array2<Color>, i: int, j: int) returns (count: int)
    ensures count == Neighbors(g, i, j)
    ensures 0 <= count <= 8
  {
    count := 0;
    var k := i - 1;
    while k <= i + 1
      invariant i - 1 <= k <= i + 2
      invariant count == BlockScanned(g, i, j, k)
    {
      var p := j - 1;
      while p <= j + 1
        invariant j - 1 <= p <= j + 2
        invariant count == BlockScanned(g, i, j, k) + RowScanned(g, i, j, k, p)
      {
        if k == i && p == j {
          p := p + 1;
          continue;
        }
        if 0 <= k < g.Length0 && 0 <= p < g.Length1 {
          var color := g[k, p];
          if color == Live || color == White {
            count := count + 1;
          }
        }
        p := p + 1;
      }
      k := k + 1;
    }
    BlockScanIsNeighbors(g, i, j);
  }

  /** First-pass decision for one cell, given its colour and its neighbour tally. */
  function Mark(c: Color, n: int): Color
  {
    if IsAlive(c) then (if n <= 1 || 4 <= n then White else c)
    else (if n == 3 then Black else c)
  }

  /** Second-pass conversion of the temporary marks into final colours. */
  function Settle(c: Color): Color
  {
    if c == White then Dead
    else if c == Black then Live
    else c
  }

  /** Conway's rule B3/S23: birth on exactly 3 neighbours, survival on 2 or 3. */
  predicate LifeRule(alive: bool, n: int)
  {
    if alive then n == 2 || n == 3 else n == 3
  }

  predicate Settled(c: Color)
  {
    c == Live || c == Dead
  }

  /**
   * Marking never changes whether a cell reads as alive, so every neighbour
   * tally taken during the first pass sees the previous generation.
   */
  lemma MarkKeepsAliveness(c: Color, n: int)
    ensures IsAlive(Mark(c, n)) == IsAlive(c)
    ensures Settled(c) ==> (Mark(c, n) == White <==> c == Live && !LifeRule(true, n))
    ensures Settled(c) ==> (Mark(c, n) == Black <==> c == Dead && LifeRule(false, n))
  {
  }

  /** Marking then settling a Live/Dead cell applies B3/S23, and leaves no temporary colour. */
  lemma SettleMarkIsLife(c: Color, n: int)
    requires Settled(c)
    ensures Settle(Mark(c, n)) == (if LifeRule(c == Live, n) then Live else Dead)
    ensures Settled(Settle(Mark(c, n)))
  {
  }

  /**
   * blankGrid: every cell becomes Dead.
   */
  method BlankGrid(g: array2<Color>)
    modifies g
    ensures forall i, j :: 0 <= i < g.Length0 && 0 <= j < g.Length1 ==> g[i, j] == Dead
  {
    for i := 0 to g.Length0
      invariant forall k, p :: 0 <= k < i && 0 <= p < g.Length1 ==> g[k, p] == Dead
    {
      for j := 0 to g.Length1
        invariant forall k, p :: 0 <= k < i && 0 <= p < g.Length1 ==> g[k, p] == Dead
        invariant forall p :: 0 <= p < j ==> g[i, p] == Dead
      {
        g[i, j] := Dead;
      }
    }
  }

  /**
   * The blank check of drawGrid: true exactly when no cell of the board is Live.
   */
  method IsGridBlank(g: array2<Color>) returns (blank: bool)
    ensures blank <==> forall i, j :: 0 <= i < g.Length0 && 0 <= j < g.Length1 ==> g[i, j] != Live
  {
    blank := true;
    for i := 0 to g.Length0
      invariant blank <==> forall k, p :: 0 <= k < i && 0 <= p < g.Length1 ==> g[k, p] != Live
    {
      for j := 0 to g.Length1
        invariant blank <==> (forall k, p :: 0 <= k < i && 0 <= p < g.Length1 ==> g[k, p] != Live) &&
                             (forall p :: 0 <= p < j ==> g[i, p] != Live)
      {
        if g[i, j] == Live {
          blank := false;
        }
      }
    }
  }

  /**
   * One step of the first pass: the cell (i, j) receives its mark.  The ghost
   * parameter is the tally of the previous generation, which the caller shows
   * the current board still has.
   */
  method MarkCell(g: array2<Color>, i: int, j: int, ghost tally: nat)
    requires 0 <= i < g.Length0 && 0 <= j < g.Length1
    requires Neighbors(g, i, j) == tally
    modifies g
    ensures g[i, j] == Mark(old(g[i, j]), tally)
    ensures forall k, p :: 0 <= k < g.Length0 && 0 <= p < g.Length1 && (k != i || p != j) ==> g[k, p] == old(g[k, p])
  {
    var n := NumOfNeighbors(g, i, j);
    var color := g[i, j];
    if color == Live || color == White {
      if n <= 1 || 4 <= n {
        g[i, j] := White;
      }
    } else {
      if n == 3 {
        g[i, j] := Black;
      }
    }
  }

  /**
   * First pass of updateGrid: every cell receives its mark, decided from the
   * tally of the board as it was before the pass.
   */
  method MarkPass(g: array2<Color>)
    modifies g
    ensures forall i, j :: 0 <= i < g.Length0 && 0 <= j < g.Length1 ==>
              g[i, j] == Mark(old(g[i, j]), old(Neighbors(g, i, j)))
  {
    for i := 0 to g.Length0
      invariant forall k, p :: 0 <= k < g.Length0 && 0 <= p < g.Length1 ==> IsAlive(g[k, p]) == IsAlive(old(g[k, p]))
      invariant forall k, p :: 0 <= k < g.Length0 && 0 <= p < g.Length1 ==>
                  g[k, p] == if k < i then Mark(old(g[k, p]), old(Neighbors(g, k, p))) else old(g[k, p])
    {
      for j := 0 to g.Length1
        invariant forall k, p :: 0 <= k < g.Length0 && 0 <= p < g.Length1 ==> IsAlive(g[k, p]) == IsAlive(old(g[k, p]))
        invariant forall k, p :: 0 <= k < g.Length0 && 0 <= p < g.Length1 ==>
                    g[k, p] == if k < i || (k == i && p < j) then Mark(old(g[k, p]), old(Neighbors(g, k, p))) else old(g[k, p])
      {
        MarkCell(g, i, j, old(Neighbors(g, i, j)));
        MarkKeepsAliveness(old(g[i, j]), old(Neighbors(g, i, j)));
      }
    }
  }

  /** Second pass of updateGrid: White becomes Dead, Black becomes Live, the rest stays. */
  method SettlePass(g: array2<Color>)
    modifies g
    ensures forall i, j :: 0 <= i < g.Length0 && 0 <= j < g.Length1 ==> g[i, j] == Settle(old(g[i, j]))
  {
    for i := 0 to g.Length0
      invariant forall k, p :: 0 <= k < i && 0 <= p < g.Length1 ==> g[k, p] == Settle(old(g[k, p]))
      invariant forall k, p :: i <= k < g.Length0 && 0 <= p < g.Length1 ==> g[k, p] == old(g[k, p])
    {
      for j := 0 to g.Length1
        invariant forall k, p :: 0 <= k < i && 0 <= p < g.Length1 ==> g[k, p] == Settle(old(g[k, p]))
        invariant forall p :: 0 <= p < j ==> g[i, p] == Settle(old(g[i, p]))
        invariant forall p :: j <= p < g.Length1 ==> g[i, p] == old(g[i, p])
        invariant forall k, p :: i < k < g.Length0 && 0 <= p < g.Length1 ==> g[k, p] == old(g[k, p])
      {
        var color := g[i, j];
        if color == White {
          g[i, j] := Dead;
        } else if color == Black {
          g[i, j] := Live;
        }
      }
    }
  }

  /**
   * updateGrid: advances the board one generation in place.  Every cell's
   * fate is decided from the previous generation; on a board of Live and
   * Dead cells the result is B3/S23 with off-board positions counted dead,
   * and no temporary colour is left behind.
   */
  method UpdateGrid(g: array2<Color>)
    modifies g
    ensures forall i, j :: 0 <= i < g.Length0 && 0 <= j < g.Length1 ==>
              g[i, j] == Settle(Mark(old(g[i, j]), old(Neighbors(g, i, j))))
    ensures (forall i, j :: 0 <= i < g.Length0 && 0 <= j < g.Length1 ==> Settled(old(g[i, j]))) ==>
              forall i, j :: 0 <= i < g.Length0 && 0 <= j < g.Length1 ==>
                g[i, j] == (if LifeRule(old(g[i, j]) == Live, old(Neighbors(g, i, j))) then Live else Dead)
  {
    MarkPass(g);
    SettlePass(g);
  }
}
