# Game of Life: a verified model of the core

This project models the core of a Game of Life program: the in-place generation step on a dense board, placement of preset patterns at the board centre, the RLE encoder that saves the live-cell set, the console and on-screen input of birth/survival rules, the cell toggling on the pattern-input screen, and the two comparison functors the live-cell containers use. Each source file has one Dafny module:

- `globals.dfy` (`Globals`): the board constants, the `Cell` value type, `pair_equal` and `pair_less` with their order lemmas, and the `Screen` identifiers screens hand control to.
- `game_logic.dfy` (`GameLogic`): the board as an `array2<Color>`, with the four colours Live, Dead, White (alive, about to die) and Black (dead, about to be born). It holds `numOfNeighbors`, `blankGrid`, the blank check of `drawGrid`, and the two passes of `updateGrid`, each proved against a specification function.
- `patterns.dfy` (`Patterns`): `centerOfMass` (a truncating mean), `putPatternInGrid`, `cells_count_x/y` and the `numToPattern` catalogue.
- `rle_format.dfy` (`RleFormat`): a reference definition of the RLE body the encoder writes. It holds decimal counts, `o`/`b`/`$` tokens with a count of 1 omitted, line breaks between tokens, and a final `!`. It also gives a reader for such a body and the cells it paints.
- `save_screen.dfy` (`SaveScreen`): `biggerThan1`, `writeRulestringToFile` and the encoding part of `gridToRLE`. The encoder is proved against the reference reader: its body reads back as exactly the live cells, shifted so the leftmost column and the top row are 0.
- `automaton_menu.dfy` (`AutomatonMenu`): `handleBornSurviveInput` over a sequence of console lines, the preset rule tables, and `run` from the menu choice on.
- `rulestring_screen.dfy` (`RulestringScreen`): the keystroke handling of the rulestring screen, as a class whose fields are the two prompts, the stored rules and `run()`'s local state.
- `pattern_input.dfy` (`PatternInput`): `handleLeftClick` on the sparse live set, and the press/move/release handling that decides whether a release is a click.

`globals.h:25-41` and `pair_functors.h:17-35` define the same `pair_equal`/`pair_less`; one model serves both. The pattern-input screen keeps every live cell on the board (`PatternInput.ClickStaysOnBoard`). That gives the encoder the `x >= 0` its header width needs (`SaveScreen.WidthIsSpan`).

## Model

| member | source | states |
|---|---|---|
| Globals.PairEqual | pair_functors.h:17-22 | true exactly when the two cells are the same cell |
| Globals.GridIsWholeCells | globals.h:7-10 | the grid's width and height are whole multiples of the cell size (4848 × 2727 cells) |
| Globals.PairLessIsStrictOrder | pair_functors.h:25-35 | pair_less is irreflexive, asymmetric and transitive, so a valid ordering for std::set |
| Globals.PairLessTrichotomy | pair_functors.h:17-35 | two cells are incomparable under pair_less exactly when pair_equal holds, and any two cells are ordered one way or equal |
| Globals.PairLessIsRowMajor | globals.h:31-41 | on a board of width w, pair_less agrees with the row-major index y·w + x |
| GameLogic.NumOfNeighbors | game_logic.cpp:168-186 | the count is the number of Live or White cells among the in-grid Moore neighbours, the cell itself excluded, and lies in [0, 8] |
| GameLogic.RowScanIsRow | game_logic.cpp:173-182 | one row of the scan counts the alive in-grid cells of that row around the column, skipping the centre cell on its own row |
| GameLogic.BlockScanIsNeighbors | game_logic.cpp:172-183 | the three row scans together count exactly the neighbours |
| GameLogic.MarkKeepsAliveness | game_logic.cpp:201-206 | marking never changes whether a cell counts as alive; a cell is marked White iff it was Live and fails survival, and Black iff it was Dead and is born |
| GameLogic.SettleMarkIsLife | game_logic.cpp:199-216 | marking a Live/Dead cell and then settling it yields B3/S23's verdict, and the result is Live or Dead |
| GameLogic.BlankGrid | game_logic.cpp:159-166 | afterwards every cell is Dead |
| GameLogic.IsGridBlank | game_logic.cpp:60-75 | returns true iff no cell is Live |
| GameLogic.MarkCell | game_logic.cpp:199-206 | the cell gets the mark for its old colour and neighbour count; no other cell changes |
| GameLogic.MarkPass | game_logic.cpp:196-208 | every cell is marked from the neighbour count of the grid as it was before the pass |
| GameLogic.SettlePass | game_logic.cpp:210-216 | every White becomes Dead, every Black becomes Live, other colours stay |
| GameLogic.UpdateGrid | game_logic.cpp:188-217 | each new cell is its mark, settled, computed from the old grid; on an old grid of Live/Dead cells, a cell is Live afterwards iff B3/S23 holds for it on the old grid, with cells outside the grid dead |
| Patterns.CenterOfMass | patterns.cpp:9-18 | for a non-empty pattern, returns the per-axis sums divided by the size with truncating division |
| Patterns.Translate | patterns.cpp:98-100 | every point moves by the same offset, and the order and count are kept |
| Patterns.PutPatternInGrid | patterns.cpp:95-103 | afterwards a cell is Live if it is a placed point, and every other cell is unchanged |
| Patterns.PlacementKeepsShape | patterns.cpp:98-100 | placing keeps the difference between any two points |
| Patterns.SinglePointLandsAtCentre | patterns.cpp:96-100 | a one-point pattern lands exactly on (cells_count_x / 2, cells_count_y / 2) |
| Patterns.CentroidInBox | patterns.cpp:9-18 | the truncated mean of points inside a box lies inside that box |
| Patterns.SumOfTranslate | patterns.cpp:10-15 | moving n points by d moves each coordinate sum by n·d |
| Patterns.PlacedCentroidIsBoardCentre | patterns.cpp:95-100 | for points with non-negative coordinates, the placed pattern's centre of mass is the board centre |
| Patterns.CatalogShape | patterns.cpp:86-93 | the catalogue has 29 entries: 0 and 1 are null, 2..28 are non-empty patterns in menu order (Block at 2, Blinker at 10, Glider at 23, Simkin's glider gun at 28) |
| Patterns.PlacementFitsBoard | patterns.cpp:99-101 | a pattern whose points lie in a box no larger than half the board is placed wholly on the board |
| RleFormat.Decimal | save_screen.cpp:11-13 | std::to_string of a count is a non-empty string of digits |
| RleFormat.DecimalRoundTrip | save_screen.cpp:11-13 | the decimal text of n reads back as n and has no leading zero |
| RleFormat.TextAppend | save_screen.cpp:83-120 | the text and the tokens of a concatenation are the concatenations of the parts' text and tokens |
| RleFormat.ParseLineBreak | save_screen.cpp:112-115 | a line break in front of a body does not change how it reads |
| RleFormat.ParseToken | save_screen.cpp:105-106 | a written token in front of a readable body reads back as that token, then the body's tokens |
| RleFormat.ParseText | save_screen.cpp:83-120 | a body of well-formed tokens and line breaks followed by '!' reads back as exactly its tokens |
| RleFormat.RowCellsGrow | save_screen.cpp:100-102 | lengthening a live run by one paints exactly one more cell, at its right end |
| SaveScreen.BiggerThan1 | save_screen.cpp:10-13 | empty for counts up to 1; otherwise digits with no leading zero that read back as the count |
| SaveScreen.Ascending | save_screen.cpp:17-23 | the set's elements in strictly increasing order, as a std::set iterates |
| SaveScreen.AppendAscending | save_screen.cpp:17-19 | appends the digits of the set in increasing order |
| SaveScreen.WriteRulestring | save_screen.cpp:15-24 | the text is "rule = B", the born digits ascending, "/S", then the survive digits ascending |
| SaveScreen.GameOfLifeRuleText | save_screen.cpp:15-24 | Conway's rule B{3}/S{2,3} is written "rule = B3/S23" |
| SaveScreen.MinimalCell | save_screen.cpp:60 | a non-empty set has a cell no other cell is pair_less than |
| SaveScreen.OrderedCells | save_screen.cpp:60 | the ordered copy is strictly increasing under pair_less and holds exactly the live cells |
| SaveScreen.Lowest | save_screen.cpp:63-67 | the least row or column of a non-empty set, attained by some cell |
| SaveScreen.Highest | save_screen.cpp:63-67 | the greatest row or column of a non-empty set, attained by some cell |
| SaveScreen.WidthIsSpan | save_screen.cpp:63-69 | when no cell has a negative column, the header width is the true column span, and width and height are at least 1 |
| SaveScreen.GridToRle | save_screen.cpp:42-124 | an empty set gives exactly "x = 0, y = 0, rule…\n!"; otherwise the text starts with the header of the pattern's width, height and rule, the rest reads back as the live cells shifted so that the leftmost column and the top row are 0, and it ends in "o!" |
| SaveScreen.HeaderAndBody | save_screen.cpp:59-120 | the header carries the pattern's width, height and rule; the body reads back as the shifted live cells and ends in "o!" |
| SaveScreen.Layout | save_screen.cpp:62-74 | min_x is the leftmost column and no cell lies left of it; the header line carries width max_x − min_x + 1 and height last row − first row + 1 |
| SaveScreen.ColumnExtremes | save_screen.cpp:62-67 | min_x is the least column; max_x is the greatest column, or 0 when every column is negative |
| SaveScreen.RunningMinIsMin | save_screen.cpp:63-67 | a running minimum that starts at INT_MAX and is attained by a cell is the least column |
| SaveScreen.RunningMaxIsMax | save_screen.cpp:63-67 | a running maximum that starts at 0 and otherwise is attained by a cell is the greatest column, or 0 |
| SaveScreen.FirstAndLastRows | save_screen.cpp:70 | the first and last cells of the ordered copy lie in the top and bottom rows |
| SaveScreen.ColumnsNotLeftOfMin | save_screen.cpp:81-97 | every cell's offset from min_x is non-negative, so the dead-cell runs are well formed |
| SaveScreen.HeaderThenBody | save_screen.cpp:71-120 | header then body: the header is a prefix, the body is what follows, and the text ends in "o!" |
| SaveScreen.WriteBody | save_screen.cpp:76-120 | the body reads back as the ordered cells shifted by (−min_x, −first row) and ends in "o!" |
| SaveScreen.LeadingDeadCells | save_screen.cpp:79-82 | the dead run before the first cell puts the cursor at its offset from min_x on row 0 |
| SaveScreen.ScanCell | save_screen.cpp:83-116 | one loop iteration: the text so far describes the cells visited so far plus the open live run |
| SaveScreen.NextCell | save_screen.cpp:84-108 | a neighbour one column to the right on the same row writes nothing and lengthens the live run by one; in every case the written tokens plus the open run cover the previous cells and the new one, with the new cell at the run's right end |
| SaveScreen.NewRow | save_screen.cpp:86-98 | a row change appends exactly the live run as an `o` token, the row distance as a `$` token, and the cell's offset from min_x as a `b` token when it is not 0 (each count written only above 1); the run restarts at 1 on the new cell |
| SaveScreen.Gap | save_screen.cpp:103-108 | a gap of d columns appends exactly the live run as an `o` token and d − 1 as a `b` token (each count written only above 1); the run restarts at 1 on the new cell |
| SaveScreen.FlushLine | save_screen.cpp:110-116 | flushing writes the buffer and a line break and empties the buffer, without changing what the text reads as |
| SaveScreen.CloseBody | save_screen.cpp:118-120 | the last live run and '!' complete a body that reads back as all cells painted |
| SaveScreen.EmitToken | save_screen.cpp:105-106 | appending a token's text extends the text by that token and the painting by its step |
| SaveScreen.NormalisedIsShifted | save_screen.cpp:70-81 | shifting the ordered cells by (leftmost column, top row) gives the normalised live set |
| AutomatonMenu.FirstValid | automaton_menu_screen.cpp:11-25 | the index of the first acceptable line at or after k (or the end), every line before it being unacceptable |
| AutomatonMenu.HandleBornSurviveInput | automaton_menu_screen.cpp:6-28 | returns the digit set of the first acceptable line (empty when the input runs out), and leaves the lines after it unread |
| AutomatonMenu.AppendDigit | automaton_menu_screen.cpp:16-17 | one more character adds its digit to the set, and the line stays repeat-free iff the digit was new |
| AutomatonMenu.RemoveLastDigit | rulestring_screen.cpp:46-50 | erasing the last of distinct digits removes exactly its digit from the set |
| AutomatonMenu.LineAccepts | automaton_menu_screen.cpp:16-18 | a character that passes every check extends the accepted prefix and its set |
| AutomatonMenu.LineRejected | automaton_menu_screen.cpp:16-24 | a character that is out of range, repeated or past the length bound makes the whole line unacceptable |
| AutomatonMenu.DigitSetInRange | automaton_menu_screen.cpp:16 | a line of digits in [lo, 8] stands for a set of digits in [lo, 8] |
| AutomatonMenu.DigitSetSize | automaton_menu_screen.cpp:8-17 | a repeat-free line has as many digits in its set as it has characters |
| AutomatonMenu.LengthCheckImplied | automaton_menu_screen.cpp:8-16 | for start in [0, 8], a line is accepted iff its characters are distinct digits in [start, 8]: the length check follows from the other two |
| AutomatonMenu.AcceptedIsRule | automaton_menu_screen.cpp:6-28 | the accepted set holds digits in [start, 8] only, at most 9 − start of them, and an empty first line gives ∅ |
| AutomatonMenu.CustomBornExcludesZero | automaton_menu_screen.cpp:84-85 | a custom born rule never contains 0 |
| AutomatonMenu.PresetKeys | automaton_menu_screen.cpp:30-73 | 19 names with "Custom" at 2; every name but "Custom" has a preset in both maps, and "Custom" has none until the user types one |
| AutomatonMenu.PresetRules | automaton_menu_screen.cpp:36-72 | every preset born set excludes 0 and every preset digit lies in [0, 8] |
| AutomatonMenu.FamousPresets | automaton_menu_screen.cpp:37-60 | Game of Life is B3/S23, HighLife is B36/S23, Seeds is B2/S |
| AutomatonMenu.AutomatonMenuScreen.constructor | automaton_menu_screen.cpp:30-73 | the tables are the presets, and the menu's invariant holds |
| AutomatonMenu.AutomatonMenuScreen.Run | automaton_menu_screen.cpp:75-95 | the chosen automaton's rule becomes current; for "Custom", the born and survive rules are read from consecutive inputs and stored; every stored rule stays well formed; returns the pattern menu |
| AutomatonMenu.AutomatonMenuScreen.ReadCustomRule | automaton_menu_screen.cpp:82-88 | the born rule (start 1) and then the survive rule (start 0) are read and stored under "Custom" |
| RulestringScreen.DisplayParts | rulestring_screen.cpp:35-36 | a prompt's text is its caption, the typed digits, then the cursor; the typed digits can be read back off it |
| RulestringScreen.InsertBeforeCursor | rulestring_screen.cpp:43 | inserting before the cursor appends to the typed digits |
| RulestringScreen.EraseBeforeCursor | rulestring_screen.cpp:47-49 | the character before the cursor is the last typed digit, and erasing it drops that digit |
| RulestringScreen.RulestringMenuScreen.constructor | rulestring_screen.cpp:3-7 | both prompts start with their initial text |
| RulestringScreen.RulestringMenuScreen.Start | rulestring_screen.cpp:13-17 | the born prompt is current, with lower limit 1 and nothing typed |
| RulestringScreen.RulestringMenuScreen.HandleEvent | rulestring_screen.cpp:20-82 | closing returns -1 and changes nothing; Escape resets both prompts and returns to the automaton menu; typed text acts as in HandleText (a new digit in range is appended, backspace drops the last digit, enter stores the born rule and moves on, or stores the survive rule and leaves for the pattern menu); ignored events change nothing |
| RulestringScreen.RulestringMenuScreen.HandleText | rulestring_screen.cpp:34-74 | a digit in [lower limit, 8] not typed yet is appended and added to the set; backspace acts only when something is typed and drops the last digit; enter stores the born rule and moves on, or stores the survive rule and leaves for the pattern menu with both rules well formed; anything else changes nothing |
| RulestringScreen.RulestringMenuScreen.TypeDigit | rulestring_screen.cpp:39-44 | the digit is appended to the typed digits and added to the set, keeping them in step |
| RulestringScreen.RulestringMenuScreen.EraseDigit | rulestring_screen.cpp:46-50 | the last typed digit leaves both the text and the set |
| RulestringScreen.RulestringMenuScreen.EnterBorn | rulestring_screen.cpp:53-63 | born_digits gets the typed set, the survive prompt becomes current with lower limit 0, and the born rule holds no 0 |
| RulestringScreen.RulestringMenuScreen.EnterSurvive | rulestring_screen.cpp:65-71 | survive_digits gets the typed set and both prompts are reset |
| RulestringScreen.RulestringMenuScreen.SetCurrent | rulestring_screen.cpp:44 | only the current prompt's text changes |
| PatternInput.CellAt | pattern_input_screen.cpp:24-25 | an in-grid position falls in a board cell whose square contains it |
| PatternInput.Toggle | pattern_input_screen.cpp:28-29 | the clicked cell flips membership and no other cell changes |
| PatternInput.ClickTwice | pattern_input_screen.cpp:22-29 | clicking the same position twice restores the live set |
| PatternInput.ClickStaysOnBoard | pattern_input_screen.cpp:22-29 | clicks never put a live cell off the board |
| PatternInput.SameSquareSameCell | pattern_input_screen.cpp:24-29 | two in-grid positions inside the square of one cell both select that cell, so a click at the second undoes a click at the first on any live set |
| PatternInput.SquareHasOneCell | pattern_input_screen.cpp:24-25 | cell squares do not overlap: a position lies in the square of one cell only |
| PatternInput.PatternInputScreen.Start | pattern_input_screen.cpp:33-34 | entering run() starts with no press and no drag in progress, and keeps the live set |
| PatternInput.PatternInputScreen.HandleLeftClick | pattern_input_screen.cpp:3-31 | a position outside the grid changes nothing; inside, the cell under it is toggled |
| PatternInput.PatternInputScreen.HandleEvent | pattern_input_screen.cpp:40-103 | a left release toggles a cell only when no drag happened; Escape clears the pattern; Enter goes to the save screen; the live cells stay on the board |

## Left out

- Rendering, the window, views, fonts, resizing, zoom, menu layout and every `run()` loop's polling and drawing are left out; the models handle one event at a time.
- File and directory handling around `gridToRLE` (`findAvailableName`, `create_directories`, the stream) is left out; `SaveScreen.GridToRle` returns the text it would write.
- The RLE decoder of the program is not part of this model; `RleFormat` is a reference reader used only to state what the encoder's output means.
- The console menus (`introduction`, `handleMenuInput`, `system("cls")`) are left out. `AutomatonMenuScreen.Run` takes the number `handleMenuInput` returns as a parameter, in [1, 19).
- The numeric screen codes are not part of this model; `Screen` names them, with `Exit` for the -1 of a closed window.
- `pair_hash` is left out, since it calls std::hash; the hashed set is a Dafny `set<Cell>`.
- Integer widths are not modelled: 32-bit overflow of sums, `short int` digits and `unsigned` counts are unbounded integers here. The only exception is the INT_MAX start of the running minimum.
- `SaveScreen.GridToRle`: the variable `curr_line` is written but never read, so it is not modelled.
- `SaveScreen.GridToRle`: the body is proved to read back as the live cells. Where line breaks fall (after more than 65 buffered characters) is modelled but not stated.
- The std::set ordered copy is built by `SaveScreen.OrderedCells` (selection of pair_less-minimal cells), not by a balanced tree.
- `gridToRLE`'s single function is split into `HeaderAndBody`, `Layout`, `ColumnExtremes`, `WriteBody`, `ScanCell`, `NextCell`, `NewRow`, `Gap`, `FlushLine` and `CloseBody`, each a block of it. Splitting it keeps each proof small.
- `AutomatonMenu.HandleBornSurviveInput`: console input is a sequence of lines, and an exhausted input reads as an empty line, which is accepted as ∅. The stream-state detail that std::getline leaves the string untouched once the stream has already failed is not modelled. In that case the program would loop for ever on a last invalid line that has no newline.
- The `std::cin.get()` that discards the newline left by the menu choice is absorbed into the line-based input.
- `PatternInput.InGrid`: the click bound compares with `grid_width` and `grid_height`, which no file of this model defines; they are read as the world extent GRID_WIDTH × GRID_HEIGHT of the board. The encoder's non-negative columns (`SaveScreen.WidthIsSpan`, through `PatternInput.ClickStaysOnBoard`) rest on that reading.
- `SaveScreen.NextCell`: the tokens a row change or a gap writes are stated on `NewRow` and `Gap`, which it dispatches to, and not repeated in its own ensures.
- `SaveScreen.GridToRle`: the run-length coding is stated step by step (`NextCell`, `NewRow`, `Gap`); the whole output is stated through what it reads back as, not as one token sequence.
- `PatternInput.PatternInputScreen.HandleEvent`: the float distance test and the view movement of a drag are left out. A move event says whether the pointer is more than half a cell from the press. A release carries the world position that `mapPixelToCoords` and the cast to integers produce.
- `RulestringScreen.RulestringMenuScreen.HandleEvent`: resize events and re-centring of the prompts are left out. TextEntered carries the code point as a natural number.
- born_digits and survive_digits are settings shared by all screens; each screen class here holds its own copy.
