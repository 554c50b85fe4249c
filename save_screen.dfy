/**
 * The pattern encoder of the save screen: the live-cell set, in row-major
 * order, written as an RLE header line and body, with the automaton's
 * born/survive digits as the rule. The file and directory handling around
 * it is left out; the encoder returns the text it would write.
 */
module SaveScreen {
  import opened Globals
  import opened RleFormat

  /** INT_MAX of a 32-bit int, the initial value of the running minimum column. */
  const IntMax: int := 0x7fff_ffff

  /** biggerThan1: the decimal text of a run count, or nothing when the count is 1 (or 0). */
  function BiggerThan1(x: nat): (r: string)
    ensures x <= 1 ==> r == ""
    ensures 1 < x ==> |r| > 0 && AllDigits(r) && r[0] != '0' && ParseNat(r) == x
  {
    DecimalRoundTrip(x);
    if 1 < x then Decimal(x) else ""
  }

  // ---------------------------------------------------------------------------
  // Extremes of a set of integers and ascending enumeration (std::set order)
  // ---------------------------------------------------------------------------

  /** The least element of a non-empty set of integers. */
  ghost function SetMin(s: set<int>): (m: int)
    requires s != {}
    ensures m in s && forall k :: k in s ==> m <= k
    decreases s
  {
    assert exists e :: e in s by {
      IntSetHasElement(s);
    }
    var k :| k in s;
    if s == {k} then k
    else
      var r := SetMin(s - {k});
      assert forall j :: j in s ==> j == k || j in s - {k};
      if k < r then k else r
  }

  /** The elements of s in increasing order, as a std::set iterates them. */
  ghost function Ascending(s: set<int>): (r: seq<int>)
    ensures forall i, j :: 0 <= i < j < |r| ==> r[i] < r[j]
    ensures forall k :: k in s <==> k in r
    decreases s
  {
    if s == {} then [] else [SetMin(s)] + Ascending(s - {SetMin(s)})
  }

  /** The digits written one after the other with std::to_string. */
  function DigitsText(ds: seq<int>): string
  {
    if ds == [] then "" else IntToString(ds[0]) + DigitsText(ds[1..])
  }

  /** The rule part of the header: "rule = B", the born digits, "/S", the survive digits. */
  ghost function RuleText(born: set<int>, survive: set<int>): string
  {
    "rule = B" + DigitsText(Ascending(born)) + "/S" + DigitsText(Ascending(survive))
  }

  /** Appends the elements of `digits` in increasing order, as iterating a std::set does. */
  method AppendAscending(text: string, digits: set<int>) returns (r: string)
    ensures r == text + DigitsText(Ascending(digits))
  {
    r := text;
    var rest := digits;
    while rest != {}
      invariant r + DigitsText(Ascending(rest)) == text + DigitsText(Ascending(digits))
      decreases rest
    {
      assert SetMin(rest) in rest && forall k :: k in rest ==> SetMin(rest) <= k;
      var d :| d in rest && forall k :: k in rest ==> d <= k;
      assert d == SetMin(rest);
      AscendingText(rest);
      ghost var tail := DigitsText(Ascending(rest - {d}));
      ghost var head := IntToString(d);
      assert DigitsText(Ascending(rest)) == head + tail;
      AppendAssoc(r, head, tail);
      r := r + IntToString(d);
      rest := rest - {d};
    }
  }

  /** The text of an ascending enumeration starts with the smallest element. */
  lemma AscendingText(s: set<int>)
    requires s != {}
    ensures DigitsText(Ascending(s)) == IntToString(SetMin(s)) + DigitsText(Ascending(s - {SetMin(s)}))
  {
    var m := SetMin(s);
    assert Ascending(s) == [m] + Ascending(s - {m});
    assert Ascending(s)[1..] == Ascending(s - {m});
  }

  lemma AppendAssoc(a: string, b: string, c: string)
    ensures a + (b + c) == (a + b) + c
  {
  }

  /** writeRulestringToFile: the rule text, born and survive digits each in increasing order. */
  method WriteRulestring(born: set<int>, survive: set<int>) returns (text: string)
    ensures text == RuleText(born, survive)
  {
    text := AppendAscending("rule = B", born);
    text := AppendAscending(text + "/S", survive);
  }

  /** Conway's own rule is written "rule = B3/S23". */
  lemma GameOfLifeRuleText()
    ensures RuleText({3}, {2, 3}) == "rule = B3/S23"
  {
    calc {
      RuleText({3}, {2, 3});
      "rule = B" + DigitsText(Ascending({3})) + "/S" + DigitsText(Ascending({2, 3}));
      { BornDigitsText(); SurviveDigitsText(); }
      "rule = B" + "3" + "/S" + "23";
      { JoinBorn(); }
      "rule = B3" + "/S" + "23";
      { JoinSeparator(); }
      "rule = B3/S" + "23";
      { JoinSurvive(); }
      "rule = B3/S23";
    }
  }

  lemma JoinBorn()
    ensures "rule = B" + "3" == "rule = B3"
  {
  }

  lemma JoinSeparator()
    ensures "rule = B3" + "/S" == "rule = B3/S"
  {
  }

  lemma JoinSurvive()
    ensures "rule = B3/S" + "23" == "rule = B3/S23"
  {
  }

  lemma BornDigitsText()
    ensures DigitsText(Ascending({3})) == "3"
  {
    AscendingOfThree();
    assert [3][1..] == [];
  }

  lemma SurviveDigitsText()
    ensures DigitsText(Ascending({2, 3})) == "23"
  {
    AscendingOfTwoThree();
    assert [2, 3][1..] == [3];
    assert [3][1..] == [];
  }

  lemma AscendingOfThree()
    ensures Ascending({3}) == [3]
  {
    assert SetMin({3}) == 3;
    assert {3} - {3} == {};
  }

  lemma AscendingOfTwoThree()
    ensures Ascending({2, 3}) == [2, 3]
  {
    assert SetMin({2, 3}) == 2;
    assert {2, 3} - {2} == {3};
    AscendingOfThree();
  }

  // ---------------------------------------------------------------------------
  // The ordered copy of the live set (std::set<sf::Vector2i, pair_less>)
  // ---------------------------------------------------------------------------

  /** A non-empty set of cells has an element that no other element precedes. */
  lemma {:induction false} MinimalCell(s: set<Cell>) returns (m: Cell)
    requires s != {}
    ensures m in s && forall c :: c in s ==> !PairLess(c, m)
    decreases s
  {
    CellSetHasElement(s);
    var x :| x in s;
    if s == {x} {
      PairLessIsStrictOrder(x, x, x);
      m := x;
    } else {
      var m' := MinimalCell(s - {x});
      if PairLess(x, m') {
        forall c | c in s
          ensures !PairLess(c, x)
        {
          PairLessIsStrictOrder(c, x, m');
        }
        m := x;
      } else {
        assert forall c :: c in s ==> c == x || c in s - {x};
        m := m';
      }
    }
  }

  /** Strictly increasing under pair_less: row by row, left to right, no repeats. */
  predicate RowMajorSorted(cs: seq<Cell>)
  {
    forall i, j :: 0 <= i < j < |cs| ==> PairLess(cs[i], cs[j])
  }

  /** Builds the ordered copy of the live set: the same cells, in row-major order. */
  method OrderedCells(grid: set<Cell>) returns (cs: seq<Cell>)
    ensures RowMajorSorted(cs)
    ensures forall c :: c in grid <==> c in cs
  {
    cs := [];
    var rest := grid;
    while rest != {}
      invariant rest <= grid
      invariant forall c :: c in grid <==> c in cs || c in rest
      invariant RowMajorSorted(cs)
      invariant forall i, c :: 0 <= i < |cs| && c in rest ==> PairLess(cs[i], c)
      decreases rest
    {
      ghost var least := MinimalCell(rest);
      var m :| m in rest && forall c :: c in rest ==> !PairLess(c, m);
      forall c | c in rest - {m}
        ensures PairLess(m, c)
      {
        PairLessTrichotomy(m, c);
      }
      cs := cs + [m];
      rest := rest - {m};
    }
  }

  // ---------------------------------------------------------------------------
  // What the encoder writes
  // ---------------------------------------------------------------------------

  /** The two coordinates of a cell: its column and its row. */
  datatype Axis = Column | Row

  function Coord(c: Cell, a: Axis): int
  {
    if a == Column then c.x else c.y
  }

  /** The smallest column (or row) of a non-empty set of cells. */
  ghost function Lowest(grid: set<Cell>, a: Axis): (m: int)
    requires grid != {}
    ensures (exists c :: c in grid && Coord(c, a) == m) && forall c :: c in grid ==> m <= Coord(c, a)
    decreases grid
  {
    assert exists e :: e in grid by {
      CellSetHasElement(grid);
    }
    var c :| c in grid;
    if grid == {c} then Coord(c, a)
    else
      var r := Lowest(grid - {c}, a);
      assert forall d :: d in grid ==> d == c || d in grid - {c};
      if Coord(c, a) < r then Coord(c, a) else r
  }

  /** The greatest column (or row) of a non-empty set of cells. */
  ghost function Highest(grid: set<Cell>, a: Axis): (m: int)
    requires grid != {}
    ensures (exists c :: c in grid && Coord(c, a) == m) && forall c :: c in grid ==> Coord(c, a) <= m
    decreases grid
  {
    assert exists e :: e in grid by {
      CellSetHasElement(grid);
    }
    var c :| c in grid;
    if grid == {c} then Coord(c, a)
    else
      var r := Highest(grid - {c}, a);
      assert forall d :: d in grid ==> d == c || d in grid - {c};
      if Coord(c, a) > r then Coord(c, a) else r
  }

  /** The width in the header: the running maximum column starts at 0, not at the first cell. */
  ghost function PatternWidth(grid: set<Cell>): int
    requires grid != {}
  {
    var maxX := Highest(grid, Column);
    (if maxX < 0 then 0 else maxX) - Lowest(grid, Column) + 1
  }

  /** The height in the header: last row minus first row, plus one. */
  ghost function PatternHeight(grid: set<Cell>): int
    requires grid != {}
  {
    Highest(grid, Row) - Lowest(grid, Row) + 1
  }

  /**
   * With no live cell left of column 0 (as on the board) the header width is
   * the true span of the columns; only a pattern lying wholly at negative
   * columns would get a different one.
   */
  lemma WidthIsSpan(grid: set<Cell>)
    requires grid != {} && forall c :: c in grid ==> 0 <= c.x
    ensures PatternWidth(grid) == Highest(grid, Column) - Lowest(grid, Column) + 1
    ensures PatternWidth(grid) >= 1 && PatternHeight(grid) >= 1
  {
  }

  /** The header line of a saved pattern: its size and its rule. */
  ghost function Header(width: int, height: int, born: set<int>, survive: set<int>): string
  {
    HeaderLine(width, height, RuleText(born, survive))
  }

  function HeaderLine(width: int, height: int, rule: string): string
  {
    "x = " + IntToString(width) + ", y = " + IntToString(height) + ", " + rule + "\n"
  }

  /** The live cells moved so that the leftmost column and the top row are 0. */
  ghost function Normalised(grid: set<Cell>): set<Cell>
    requires grid != {}
  {
    set c | c in grid :: Cell(c.x - Lowest(grid, Column), c.y - Lowest(grid, Row))
  }

  /** The cells of a prefix of the ordered copy, moved by (-minX, -minY). */
  ghost function Shifted(cs: seq<Cell>, minX: int, minY: int): set<Cell>
  {
    set c | c in cs :: Cell(c.x - minX, c.y - minY)
  }

  /** The text so far is the pieces' text, every token is well formed, and the pieces paint `pc`. */
  ghost predicate Emitted(out: string, temp: string, pieces: seq<Piece>, pc: Cursor)
  {
    out + temp == Text(pieces) && AllValid(pieces) && Paint(Tokens(pieces)) == pc
  }

  predicate AllValid(ps: seq<Piece>)
  {
    forall i :: 0 <= i < |ps| && ps[i].Tok? ==> ValidToken(ps[i].token)
  }

  /**
   * gridToRLE without the file: an empty live set gives a fixed text; otherwise
   * the header gives the pattern's width and height and the rule, and the body
   * after it reads back as exactly the live cells, moved so that the leftmost
   * column and the top row are 0. The body always ends with a live run and '!'.
   */
  method GridToRle(grid: set<Cell>, born: set<int>, survive: set<int>) returns (rle: string)
    requires forall c :: c in grid ==> c.x <= IntMax
    ensures grid == {} ==> rle == "x = 0, y = 0, " + RuleText(born, survive) + "\n!"
    ensures grid != {} ==>
              var header := Header(PatternWidth(grid), PatternHeight(grid), born, survive);
              |header| <= |rle| && rle[..|header|] == header &&
              Decode(rle[|header|..]) == Some(Normalised(grid))
    ensures grid != {} ==> |rle| >= 2 && rle[|rle| - 2..] == "o!"
  {
    var rule := WriteRulestring(born, survive);
    if grid == {} {
      rle := "x = 0, y = 0, " + rule + "\n!";
      return;
    }
    var header, body := HeaderAndBody(grid, rule, born, survive);
    rle := header + body;
    HeaderThenBody(header, body);
  }

  /** The two parts of a non-empty pattern's text: its header line and its body. */
  method HeaderAndBody(grid: set<Cell>, rule: string, born: set<int>, survive: set<int>)
    returns (header: string, body: string)
    requires grid != {} && forall c :: c in grid ==> c.x <= IntMax
    requires rule == RuleText(born, survive)
    ensures header == Header(PatternWidth(grid), PatternHeight(grid), born, survive)
    ensures Decode(body) == Some(Normalised(grid))
    ensures |body| >= 2 && body[|body| - 2..] == "o!"
  {
    var cs := OrderedCells(grid);
    FirstAndLastRows(grid, cs);
    var minX;
    minX, header := Layout(grid, cs, rule, born, survive);
    body := WriteBody(cs, minX);
    NormalisedIsShifted(grid, cs, minX);
  }

  /**
   * The header line: the pattern's width from the running column extremes
   * and its height from the first and last cells of the ordered set; also
   * the leftmost column, from which the body counts.
   */
  method Layout(grid: set<Cell>, cs: seq<Cell>, rule: string, born: set<int>, survive: set<int>)
    returns (minX: int, header: string)
    requires grid != {} && forall c :: c in grid ==> c.x <= IntMax
    requires forall c :: c in grid <==> c in cs
    requires |cs| > 0 && cs[0].y == Lowest(grid, Row) && cs[|cs| - 1].y == Highest(grid, Row)
    requires rule == RuleText(born, survive)
    ensures minX == Lowest(grid, Column)
    ensures forall i :: 0 <= i < |cs| ==> minX <= cs[i].x
    ensures header == Header(PatternWidth(grid), PatternHeight(grid), born, survive)
  {
    var maxX;
    minX, maxX := ColumnExtremes(grid);
    var width := maxX - minX + 1;
    var height := cs[|cs| - 1].y - cs[0].y + 1;
    assert width == PatternWidth(grid) && height == PatternHeight(grid);
    header := HeaderLine(width, height, rule);
    ColumnsNotLeftOfMin(grid, cs, minX);
  }

  /**
   * The running extremes of the columns over the unordered live set: the
   * minimum starts at INT_MAX, the maximum at 0, so a pattern entirely left
   * of column 0 still gets maximum 0.
   */
  method ColumnExtremes(grid: set<Cell>) returns (minX: int, maxX: int)
    requires grid != {} && forall c :: c in grid ==> c.x <= IntMax
    ensures minX == Lowest(grid, Column)
    ensures maxX == (if Highest(grid, Column) < 0 then 0 else Highest(grid, Column))
  {
    minX, maxX := IntMax, 0;
    ghost var atMin, atMax := Cell(0, 0), Cell(0, 0);
    var rest := grid;
    while rest != {}
      invariant rest <= grid
      invariant forall c :: c in grid && c !in rest ==> minX <= c.x <= maxX
      invariant minX == IntMax || (atMin in grid && atMin.x == minX)
      invariant maxX >= 0
      invariant maxX == 0 || (atMax in grid && atMax.x == maxX)
      decreases rest
    {
      CellSetHasElement(rest);
      var c :| c in rest;
      if c.x < minX {
        minX, atMin := c.x, c;
      }
      if c.x > maxX {
        maxX, atMax := c.x, c;
      }
      rest := rest - {c};
    }
    RunningMinIsMin(grid, minX, atMin);
    RunningMaxIsMax(grid, maxX, atMax);
  }

  /** No ordered cell lies left of the smallest column. */
  lemma ColumnsNotLeftOfMin(grid: set<Cell>, cs: seq<Cell>, minX: int)
    requires grid != {} && (forall c :: c in grid <==> c in cs) && minX == Lowest(grid, Column)
    ensures forall i :: 0 <= i < |cs| ==> minX <= cs[i].x
  {
    forall i | 0 <= i < |cs|
      ensures minX <= cs[i].x
    {
      assert cs[i] in grid;
    }
  }

  /** The header is a prefix of the text and the body is what follows it. */
  lemma HeaderThenBody(header: string, body: string)
    requires |body| >= 2 && body[|body| - 2..] == "o!"
    ensures var rle := header + body;
            |header| <= |rle| && rle[..|header|] == header && rle[|header|..] == body &&
            |rle| >= 2 && rle[|rle| - 2..] == "o!"
  {
    var rle := header + body;
    assert rle[|rle| - 2..] == body[|body| - 2..];
  }

  /**
   * The body loop of gridToRLE over the ordered cells: leading dead cells,
   * then for each next cell a longer live run, a gap (a live run and a dead
   * run) or a new row (a live run, a `$` run and the row's leading dead
   * cells), with the buffer flushed as a line once it is longer than 65
   * characters; at the end the last live run and '!'. It reads back as the
   * cells moved by (-minX, -(top row)).
   */
  method WriteBody(cs: seq<Cell>, minX: int) returns (body: string)
    requires |cs| > 0 && RowMajorSorted(cs)
    requires forall i :: 0 <= i < |cs| ==> minX <= cs[i].x
    ensures Decode(body) == Some(Shifted(cs, minX, cs[0].y))
    ensures |body| >= 2 && body[|body| - 2..] == "o!"
  {
    var minY := cs[0].y;
    var out := "";
    var temp;
    // The pieces written so far, and where they leave the reader's cursor;
    // the open live run of `streak` cells is not written yet.
    ghost var pieces, pc;
    temp, pieces, pc := LeadingDeadCells(cs[0].x - minX);
    var streak := 1;
    var lead := cs[0].x - minX;
    ShiftedFirst(cs, minX);
    RowCellsOne(lead, 0);

    var i := 1;
    while i < |cs|
      invariant 1 <= i <= |cs|
      invariant Scanned(cs, i, minX, minY, out, temp, streak, pieces, pc)
    {
      temp, streak, pieces, pc := ScanCell(cs, i, minX, minY, out, temp, streak, pieces, pc);

      // Soft line limit: flush once the buffer is longer than 65 characters.
      if 65 < |temp| {
        out, temp, pieces := FlushLine(out, temp, pieces, pc);
      }
      i := i + 1;
    }

    body := CloseBody(out, temp, streak, pieces, pc);
    assert cs[..|cs|] == cs;
  }

  /**
   * The loop state after the first i ordered cells: the text so far paints
   * `pc`, and the open live run of `streak` cells ends at cell i - 1, so that
   * together they cover exactly the first i cells, moved.
   */
  ghost predicate Scanned(cs: seq<Cell>, i: int, minX: int, minY: int, out: string, temp: string, streak: nat,
                          pieces: seq<Piece>, pc: Cursor)
    requires 1 <= i <= |cs|
  {
    streak >= 1 && Emitted(out, temp, pieces, pc) &&
    pc.x + streak == cs[i - 1].x - minX + 1 && pc.y == cs[i - 1].y - minY &&
    pc.live + RowCells(pc.x, streak, pc.y) == Shifted(cs[..i], minX, minY)
  }

  /** Cell i joins the text: the first i + 1 cells are then covered. */
  method ScanCell(cs: seq<Cell>, i: int, minX: int, minY: int, out: string, temp: string, streak: nat,
                  ghost pieces: seq<Piece>, ghost pc: Cursor)
    returns (temp': string, streak': nat, ghost pieces': seq<Piece>, ghost pc': Cursor)
    requires 1 <= i < |cs| && PairLess(cs[i - 1], cs[i]) && minX <= cs[i].x
    requires Scanned(cs, i, minX, minY, out, temp, streak, pieces, pc)
    ensures Scanned(cs, i + 1, minX, minY, out, temp', streak', pieces', pc')
  {
    temp', streak', pieces', pc' := NextCell(cs[i - 1], cs[i], minX, minY, out, temp, streak, pieces, pc);
    ScannedStep(cs, i, minX, minY, out, streak, pc, temp', streak', pieces', pc');
  }

  /** The dead cells before the first live cell of the top row, if any. */
  method LeadingDeadCells(lead: nat) returns (temp: string, ghost pieces: seq<Piece>, ghost pc: Cursor)
    ensures Emitted("", temp, pieces, pc) && pc == Cursor(lead, 0, {})
  {
    temp, pieces, pc := "", [], Cursor(0, 0, {});
    assert Emitted("", temp, pieces, pc);
    if lead != 0 {
      EmitToken("", temp, pieces, pc, lead, 'b');
      temp, pieces, pc := temp + BiggerThan1(lead) + "b", pieces + [Tok(Run(lead, 'b'))], Step(pc, Run(lead, 'b'));
    }
  }

  /** The last live run and the closing '!': the body then reads back as every cell painted. */
  method CloseBody(out: string, temp: string, streak: nat, ghost pieces: seq<Piece>, ghost pc: Cursor)
    returns (body: string)
    requires streak >= 1 && Emitted(out, temp, pieces, pc)
    ensures Decode(body) == Some(pc.live + RowCells(pc.x, streak, pc.y))
    ensures |body| >= 2 && body[|body| - 2..] == "o!"
  {
    EmitToken(out, temp, pieces, pc, streak, 'o');
    var temp' := temp + BiggerThan1(streak) + "o";
    ghost var pieces' := pieces + [Tok(Run(streak, 'o'))];
    AppendAssoc(out, temp', "!");
    body := out + (temp' + "!");
    ParseText(pieces');
  }

  /** The buffer written out as one line: the text gains a line break and no token. */
  method FlushLine(out: string, temp: string, ghost pieces: seq<Piece>, ghost pc: Cursor)
    returns (out': string, temp': string, ghost pieces': seq<Piece>)
    requires Emitted(out, temp, pieces, pc)
    ensures Emitted(out', temp', pieces', pc) && temp' == ""
    ensures out' == out + temp + "\n"
  {
    EmitLineBreak(pieces, out, temp);
    out', temp', pieces' := out + temp + "\n", "", pieces + [LineBreak];
  }

  /**
   * One step of the body loop, from the previous ordered cell to the next:
   * a longer live run, a gap, or a new row. The written pieces and the open
   * run together paint exactly one more cell, the next one moved.
   */
  method NextCell(prev: Cell, cur: Cell, minX: int, minY: int, out: string, temp: string, streak: nat,
                  ghost pieces: seq<Piece>, ghost pc: Cursor)
    returns (temp': string, streak': nat, ghost pieces': seq<Piece>, ghost pc': Cursor)
    requires PairLess(prev, cur) && minX <= cur.x && streak >= 1
    requires Emitted(out, temp, pieces, pc)
    requires pc.x + streak == prev.x - minX + 1 && pc.y == prev.y - minY
    ensures streak' >= 1
    ensures Emitted(out, temp', pieces', pc')
    ensures pc'.x + streak' == cur.x - minX + 1 && pc'.y == cur.y - minY
    ensures pc'.live + RowCells(pc'.x, streak', pc'.y)
              == pc.live + RowCells(pc.x, streak, pc.y) + {Cell(cur.x - minX, cur.y - minY)}
    ensures cur.y == prev.y && cur.x - prev.x == 1 ==> temp' == temp && pieces' == pieces && streak' == streak + 1
  {
    if cur.y != prev.y {
      temp', streak', pieces', pc' := NewRow(prev, cur, minX, minY, out, temp, streak, pieces, pc);
    } else if cur.x - prev.x == 1 {
      temp', streak', pieces', pc' := temp, streak + 1, pieces, pc;
      RowCellsGrow(pc.x, streak, pc.y);
      assert Cell(pc.x + streak, pc.y) == Cell(cur.x - minX, cur.y - minY);
    } else {
      temp', streak', pieces', pc' := Gap(prev, cur, minX, minY, out, temp, streak, pieces, pc);
    }
  }

  /** A new row: close the run, move down, skip to the first live column. */
  method NewRow(prev: Cell, cur: Cell, minX: int, minY: int, out: string, temp: string, streak: nat,
                ghost pieces: seq<Piece>, ghost pc: Cursor)
    returns (temp': string, streak': nat, ghost pieces': seq<Piece>, ghost pc': Cursor)
    requires prev.y < cur.y && minX <= cur.x && streak >= 1
    requires Emitted(out, temp, pieces, pc)
    requires pc.x + streak == prev.x - minX + 1 && pc.y == prev.y - minY
    ensures streak' == 1
    ensures var t := temp + BiggerThan1(streak) + "o" + BiggerThan1(cur.y - prev.y) + "$";
            temp' == if cur.x - minX != 0 then t + BiggerThan1(cur.x - minX) + "b" else t
    ensures var ps := pieces + [Tok(Run(streak, 'o'))] + [Tok(Run(cur.y - prev.y, '$'))];
            pieces' == if cur.x - minX != 0 then ps + [Tok(Run(cur.x - minX, 'b'))] else ps
    ensures Emitted(out, temp', pieces', pc')
    ensures pc'.x + streak' == cur.x - minX + 1 && pc'.y == cur.y - minY
    ensures pc'.live + RowCells(pc'.x, streak', pc'.y)
              == pc.live + RowCells(pc.x, streak, pc.y) + {Cell(cur.x - minX, cur.y - minY)}
  {
    temp', pieces', pc' := temp, pieces, pc;
    EmitToken(out, temp', pieces', pc', streak, 'o');
    temp', pieces', pc' := temp' + BiggerThan1(streak) + "o", pieces' + [Tok(Run(streak, 'o'))], Step(pc', Run(streak, 'o'));
    EmitToken(out, temp', pieces', pc', cur.y - prev.y, '$');
    temp', pieces', pc' := temp' + BiggerThan1(cur.y - prev.y) + "$", pieces' + [Tok(Run(cur.y - prev.y, '$'))], Step(pc', Run(cur.y - prev.y, '$'));
    if cur.x - minX != 0 {
      EmitToken(out, temp', pieces', pc', cur.x - minX, 'b');
      temp', pieces', pc' := temp' + BiggerThan1(cur.x - minX) + "b", pieces' + [Tok(Run(cur.x - minX, 'b'))], Step(pc', Run(cur.x - minX, 'b'));
    }
    streak' := 1;
    RowCellsOne(cur.x - minX, pc'.y);
    assert Cell(cur.x - minX, pc'.y) == Cell(cur.x - minX, cur.y - minY);
  }

  /** A gap in the row: close the run and write the dead cells between. */
  method Gap(prev: Cell, cur: Cell, minX: int, minY: int, out: string, temp: string, streak: nat,
             ghost pieces: seq<Piece>, ghost pc: Cursor)
    returns (temp': string, streak': nat, ghost pieces': seq<Piece>, ghost pc': Cursor)
    requires prev.y == cur.y && prev.x + 1 < cur.x && streak >= 1
    requires Emitted(out, temp, pieces, pc)
    requires pc.x + streak == prev.x - minX + 1 && pc.y == prev.y - minY
    ensures streak' == 1
    ensures temp' == temp + BiggerThan1(streak) + "o" + BiggerThan1(cur.x - prev.x - 1) + "b"
    ensures pieces' == pieces + [Tok(Run(streak, 'o'))] + [Tok(Run(cur.x - prev.x - 1, 'b'))]
    ensures Emitted(out, temp', pieces', pc')
    ensures pc'.x + streak' == cur.x - minX + 1 && pc'.y == cur.y - minY
    ensures pc'.live + RowCells(pc'.x, streak', pc'.y)
              == pc.live + RowCells(pc.x, streak, pc.y) + {Cell(cur.x - minX, cur.y - minY)}
  {
    temp', pieces', pc' := temp, pieces, pc;
    EmitToken(out, temp', pieces', pc', streak, 'o');
    temp', pieces', pc' := temp' + BiggerThan1(streak) + "o", pieces' + [Tok(Run(streak, 'o'))], Step(pc', Run(streak, 'o'));
    EmitToken(out, temp', pieces', pc', cur.x - prev.x - 1, 'b');
    temp', pieces', pc' := temp' + BiggerThan1(cur.x - prev.x - 1) + "b", pieces' + [Tok(Run(cur.x - prev.x - 1, 'b'))], Step(pc', Run(cur.x - prev.x - 1, 'b'));
    streak' := 1;
    RowCellsOne(pc'.x, pc'.y);
    assert Cell(pc'.x, pc'.y) == Cell(cur.x - minX, cur.y - minY);
  }

  // ---------------------------------------------------------------------------
  // Steps of the encoder's proof
  // ---------------------------------------------------------------------------

  /** Appending a line break to the flushed text appends "\n" and no token. */
  lemma EmitLineBreak(ps: seq<Piece>, out: string, temp: string)
    requires out + temp == Text(ps)
    ensures out + temp + "\n" + "" == Text(ps + [LineBreak])
    ensures Tokens(ps + [LineBreak]) == Tokens(ps)
    ensures AllValid(ps) ==> AllValid(ps + [LineBreak])
  {
    TextAppend(ps, [LineBreak]);
    assert [LineBreak][1..] == [];
  }

  /** Appending a run's text to the buffer appends that run as a piece, and the reader takes one more step. */
  lemma EmitToken(out: string, temp: string, ps: seq<Piece>, pc: Cursor, n: nat, tag: char)
    requires Emitted(out, temp, ps, pc) && ValidToken(Run(n, tag))
    ensures Emitted(out, temp + BiggerThan1(n) + [tag], ps + [Tok(Run(n, tag))], Step(pc, Run(n, tag)))
  {
    EmitTokenText(out, temp, ps, n, tag);
    EmitTokenPiece(ps, Run(n, tag));
    PaintSnoc(Tokens(ps), Run(n, tag));
  }

  lemma EmitTokenText(out: string, temp: string, ps: seq<Piece>, n: nat, tag: char)
    requires out + temp == Text(ps)
    ensures out + (temp + BiggerThan1(n) + [tag]) == Text(ps + [Tok(Run(n, tag))])
  {
    var t := Run(n, tag);
    TextAppend(ps, [Tok(t)]);
    assert [Tok(t)][1..] == [];
    assert Text([Tok(t)]) == BiggerThan1(n) + [tag];
    AppendAssoc(temp, BiggerThan1(n), [tag]);
    AppendAssoc(out, temp, BiggerThan1(n) + [tag]);
  }

  lemma EmitTokenPiece(ps: seq<Piece>, t: Token)
    ensures Tokens(ps + [Tok(t)]) == Tokens(ps) + [t]
    ensures AllValid(ps) && ValidToken(t) ==> AllValid(ps + [Tok(t)])
  {
    TextAppend(ps, [Tok(t)]);
    assert [Tok(t)][1..] == [];
  }

  /** The running minimum column, started at INT_MAX, ends as the smallest column. */
  lemma RunningMinIsMin(grid: set<Cell>, minX: int, atMin: Cell)
    requires grid != {} && forall c :: c in grid ==> minX <= c.x <= IntMax
    requires minX == IntMax || (atMin in grid && atMin.x == minX)
    ensures minX == Lowest(grid, Column)
  {
    var lo := Lowest(grid, Column);
    var w :| w in grid && Coord(w, Column) == lo;
    if minX != IntMax {
      assert Coord(atMin, Column) == minX;
    }
  }

  /** The running maximum column, started at 0, ends as the largest column or 0. */
  lemma RunningMaxIsMax(grid: set<Cell>, maxX: int, atMax: Cell)
    requires grid != {} && forall c :: c in grid ==> c.x <= maxX
    requires maxX >= 0
    requires maxX == 0 || (atMax in grid && atMax.x == maxX)
    ensures maxX == (if Highest(grid, Column) < 0 then 0 else Highest(grid, Column))
  {
    var hi := Highest(grid, Column);
    var w :| w in grid && Coord(w, Column) == hi;
    if maxX != 0 {
      assert Coord(atMax, Column) == maxX;
    }
  }

  /** In row-major order the first cell is on the top row and the last on the bottom row. */
  lemma FirstAndLastRows(grid: set<Cell>, cs: seq<Cell>)
    requires grid != {} && RowMajorSorted(cs) && forall c :: c in grid <==> c in cs
    ensures |cs| > 0
    ensures cs[0].y == Lowest(grid, Row) && cs[|cs| - 1].y == Highest(grid, Row)
  {
    FirstRow(grid, cs);
    LastRow(grid, cs);
  }

  lemma FirstRow(grid: set<Cell>, cs: seq<Cell>)
    requires grid != {} && RowMajorSorted(cs) && forall c :: c in grid <==> c in cs
    ensures |cs| > 0 && cs[0].y == Lowest(grid, Row)
  {
    CellSetHasElement(grid);
    var c0 :| c0 in grid;
    assert c0 in cs;
    var bottom := Lowest(grid, Row);
    var w :| w in grid && Coord(w, Row) == bottom;
    var j :| 0 <= j < |cs| && cs[j] == w;
    var first := cs[0];
    if j > 0 {
      assert PairLess(first, cs[j]);
    }
    assert first.y <= bottom;
    assert first in grid;
    assert bottom <= Coord(first, Row);
  }

  lemma LastRow(grid: set<Cell>, cs: seq<Cell>)
    requires grid != {} && RowMajorSorted(cs) && forall c :: c in grid <==> c in cs
    ensures |cs| > 0 && cs[|cs| - 1].y == Highest(grid, Row)
  {
    CellSetHasElement(grid);
    var c0 :| c0 in grid;
    assert c0 in cs;
    var top := Highest(grid, Row);
    var w :| w in grid && Coord(w, Row) == top;
    var j :| 0 <= j < |cs| && cs[j] == w;
    var last := cs[|cs| - 1];
    if j < |cs| - 1 {
      assert PairLess(cs[j], last);
    }
    assert top <= last.y;
    assert last in grid;
    assert Coord(last, Row) <= top;
  }

  /** A run of one live cell is that cell. */
  lemma RowCellsOne(x: int, y: int)
    ensures RowCells(x, 1, y) == {Cell(x, y)}
  {
    assert Cell(x, y) in RowCells(x, 1, y);
  }

  /** One more ordered cell adds its moved copy. */
  lemma ShiftedSnoc(cs: seq<Cell>, i: int, minX: int, minY: int)
    requires 0 <= i < |cs|
    ensures Shifted(cs[..i + 1], minX, minY)
              == Shifted(cs[..i], minX, minY) + {Cell(cs[i].x - minX, cs[i].y - minY)}
  {
    assert cs[..i + 1] == cs[..i] + [cs[i]];
  }

  /** Covering the first i cells, one more cell covers the first i + 1. */
  lemma ScannedStep(cs: seq<Cell>, i: int, minX: int, minY: int, out: string, streak: nat, pc: Cursor,
                    temp': string, streak': nat, pieces': seq<Piece>, pc': Cursor)
    requires 1 <= i < |cs| && pc.live + RowCells(pc.x, streak, pc.y) == Shifted(cs[..i], minX, minY)
    requires streak' >= 1 && Emitted(out, temp', pieces', pc')
    requires pc'.x + streak' == cs[i].x - minX + 1 && pc'.y == cs[i].y - minY
    requires pc'.live + RowCells(pc'.x, streak', pc'.y)
               == pc.live + RowCells(pc.x, streak, pc.y) + {Cell(cs[i].x - minX, cs[i].y - minY)}
    ensures Scanned(cs, i + 1, minX, minY, out, temp', streak', pieces', pc')
  {
    ShiftedSnoc(cs, i, minX, minY);
    assert cs[i + 1 - 1] == cs[i];
  }

  /** The first ordered cell, moved, is on row 0. */
  lemma ShiftedFirst(cs: seq<Cell>, minX: int)
    requires |cs| > 0
    ensures Shifted(cs[..1], minX, cs[0].y) == {Cell(cs[0].x - minX, 0)}
  {
    assert cs[..1] == [cs[0]];
  }

  /** The whole ordered copy, moved by the extremes of the set, is the normalised set. */
  lemma NormalisedIsShifted(grid: set<Cell>, cs: seq<Cell>, minX: int)
    requires grid != {} && |cs| > 0 && forall c :: c in grid <==> c in cs
    requires minX == Lowest(grid, Column) && cs[0].y == Lowest(grid, Row)
    ensures Shifted(cs, minX, cs[0].y) == Normalised(grid)
  {
  }
}
