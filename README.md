# Sudoku engine of the Swing Sudoku game, in Dafny

This project models the class `Sudoku` of `sudokuGame/src/Sudoku.java`, a
Swing window that holds a 9x9 Sudoku board and does the following:
- it loads one of three preset puzzles;
- it solves the loaded puzzle by backtracking;
- it gives hints, auto-solves, checks the player's board, and undoes edits.

The model follows the Java method by method:

- `boards.dfy`, module `Boards`: boards as 9x9 `array2<int>` and as values
  (`Grid`), and `copyBoard`.
- `constraints.dfy`, module `Constraints`: `isSafe` and
  `isCorrectSolution`. Each is an imperative method over the array,
  proved equal to a predicate (`Safe`, `ValidSolution`), with lemmas
  saying what the predicates mean.
- `solver.dfy`, module `Solver`: `solveSudoku`. The reference definition
  is the mutually recursive `Solve`/`Scan`/`Try`, which follows the
  method's loops and recursion. The array method is proved to give
  `Solve`'s answer and leave `Solve`'s board. Lemmas then show the
  following:
  - the search picks the first empty cell and the least working digit;
  - it is sound: a solution it finds is valid and keeps the givens;
  - it is complete: on a board of values 0..9 whose givens do not clash,
    it succeeds exactly when some valid solution extends the board.
- `catalog.dfy`, module `Catalog`: the three preset puzzles. Each has a
  witness solution, proved valid and proved to keep the preset's givens.
- `celltext.dfy`, module `CellText`: what the window reads from and writes
  into a text field:
  - `String.trim`;
  - `String.valueOf(int)`;
  - `Integer.parseInt`;
  - the per-cell reading of `checkSolution`.
- `moves.dfy`, module `Moves`: the `Move` record and the `Stack<Move>`
  undo stack, as a class over a `seq`.
- `game.dfy`, module `SudokuGame`:
  - `Screen` is the visible state: the cell texts, the editable flags and
    the moves on the undo stack.
  - Pure transitions on it (`Initial`, `Hinted`, `Undone`, `AutoSolved`,
    `Typed`, `Verdict`) describe what each button and the key listener
    do.
  - Lemmas relate these transitions to each other.
  - The class `Sudoku`, whose fields are the window's arrays and undo
    stack, implements each button with loops over the arrays, proved
    equal to the transitions.

Behaviours of the code that a natural reading would not expect are stated
and proved as written:
- `isSafe` compares the target cell itself
  (`Constraints.SafeIffNoClash`).
- `solveSudoku` returns true on any board without an empty cell, valid
  or not (`Solver.FullBoardIsNotChecked`).
- A key released on a locked cell pushes a move with previous text `""`.
  Undo then erases the given, and Auto Solve can no longer produce an
  accepted board (`SudokuGame.UndoErasesGiven`).
- Auto Solve locks the cells it fills, so the editable flags are not
  fixed for the life of a puzzle.
- A move stores the cell's previous text (a string), not a digit.

## Model

| member | source | states |
|---|---|---|
| Boards.CopyBoard | sudokuGame/src/Sudoku.java:255-261 | the copy is a fresh 9x9 array holding exactly the cells of the board |
| Boards.NewBoard | sudokuGame/src/Sudoku.java:124-131 | copying a preset gives a fresh 9x9 array whose cells are the preset's |
| Boards.CopyIsIndependent | sudokuGame/src/Sudoku.java:255-261 | the copy is a different array: writing a cell of the copy leaves the original's cells unchanged |
| Boards.Store | sudokuGame/src/Sudoku.java:269-271 | writing board[r][c] changes that cell only: the new board is the old one with (r, c) set to v |
| Boards.ZeroCountFill | sudokuGame/src/Sudoku.java:269-271 | placing a digit in an empty cell removes exactly one empty cell (the measure of the recursion) |
| Constraints.IsSafe | sudokuGame/src/Sudoku.java:281-295 | the loops return exactly Safe: num is absent from the row, the column and the block of (row, col) |
| Constraints.BandStartIsRemainder | sudokuGame/src/Sudoku.java:287-288 | row - row % 3 is the first row of the band holding row, for every row 0..8 |
| Constraints.SafeIffNoClash | sudokuGame/src/Sudoku.java:281-295 | isSafe holds iff no cell sharing a row, a column or a block with (row, col), that cell included, holds num |
| Constraints.SafeAtEmptyCell | sudokuGame/src/Sudoku.java:281-295 | at an empty cell and for a digit 1..9, isSafe holds iff no other cell of its row, column or block holds the digit |
| Constraints.IsCorrectSolution | sudokuGame/src/Sudoku.java:338-371 | the three sweeps return exactly ValidSolution of the board |
| Constraints.CheckRows | sudokuGame/src/Sudoku.java:339-347 | true iff every row holds nine digits 1..9 with no repeat |
| Constraints.CheckColumns | sudokuGame/src/Sudoku.java:348-356 | true iff every column holds nine digits 1..9 with no repeat |
| Constraints.CheckBlocks | sudokuGame/src/Sudoku.java:357-369 | true iff each of the nine 3x3 blocks holds nine digits 1..9 with no repeat |
| Constraints.CheckBlock | sudokuGame/src/Sudoku.java:359-367 | one block sweep with its seen array: true iff the block holds nine digits 1..9 with no repeat |
| Constraints.GroupGrows | sudokuGame/src/Sudoku.java:342-345 | a digit 1..9 not yet seen extends a repeat-free prefix |
| Constraints.GroupFails | sudokuGame/src/Sudoku.java:342-345 | a value outside 1..9 or one already seen makes the group fail |
| Constraints.ValidSolutionIff | sudokuGame/src/Sudoku.java:338-371 | a board passes iff every cell holds 1..9 and no two cells of a row, column or block are equal |
| Constraints.ValidSolutionClash | sudokuGame/src/Sudoku.java:338-371 | in an accepted board, two different cells of one row, column or block differ |
| Constraints.ConsistentBlock | sudokuGame/src/Sudoku.java:357-369 | on a board of digits with no clash, every block sweep succeeds |
| Constraints.ConsistentInBlock | sudokuGame/src/Sudoku.java:357-369 | on a board of digits with no clash, two different cells of one block differ |
| Constraints.BlockAt | sudokuGame/src/Sudoku.java:361-363 | the block sweep visits board[br + i][bc + j] as its (3i + j)-th cell |
| Solver.Solve | sudokuGame/src/Sudoku.java:263-279 | a board solveSudoku finds keeps every given, fills every empty cell with 1..9 and has no empty cell |
| Solver.Scan | sudokuGame/src/Sudoku.java:264-267 | a result of the scan from (r, c) on, with no empty cell before (r, c), completes the board |
| Solver.Try | sudokuGame/src/Sudoku.java:268-276 | a result of the digit loop completes the board |
| Solver.SolveSudoku | sudokuGame/src/Sudoku.java:263-279 | returns true iff Solve finds a board; the array then holds that board, and on false it is as it was |
| Solver.TryDigits | sudokuGame/src/Sudoku.java:268-276 | the digit loop returns Try's answer; on success the array holds Try's board, on failure every tentative digit has been reset to 0 |
| Solver.PlaceAndSolve | sudokuGame/src/Sudoku.java:269-271 | one trial: returns whether the board with num placed is solved; on success the array holds that solution, on failure the cell is back to 0 and the board is as it was |
| Solver.CompletesPlaced | sudokuGame/src/Sudoku.java:269-270 | a completion of the board with the empty cell filled is a completion of the board |
| Solver.TryStep | sudokuGame/src/Sudoku.java:269-273 | a digit that is safe and whose placement solves gives that solution; any other digit passes to the next |
| Solver.SolveBaseCase | sudokuGame/src/Sudoku.java:278 | a board without an empty cell is returned at once, unchanged |
| Solver.ScanFull | sudokuGame/src/Sudoku.java:264-278 | the scan of a board without an empty cell succeeds with the board itself, from any cell on |
| Solver.SolveFillsFirstEmptyCell | sudokuGame/src/Sudoku.java:264-267 | the search decides the first empty cell in row-major order |
| Solver.ScanSkips | sudokuGame/src/Sudoku.java:264-267 | the scan passes over filled cells to the next empty one |
| Solver.TryFailsIffNoDigitWorks | sudokuGame/src/Sudoku.java:267-274 | the digit loop from num on fails iff no digit num..9 is safe and leads to a solution |
| Solver.TryChoosesLeastDigit | sudokuGame/src/Sudoku.java:267-274 | when the digit loop succeeds, its result is the solution reached from the least digit from num on that is safe and leads to a solution |
| Solver.LeastWorkingStep | sudokuGame/src/Sudoku.java:267-273 | a digit that does not lead to a solution does not change which digit is the least that does |
| Solver.SafePlacementKeepsConsistent | sudokuGame/src/Sudoku.java:269-270 | placing a safe digit into a board without clashes leaves it without clashes |
| Solver.ScanKeepsConsistent | sudokuGame/src/Sudoku.java:264-278 | a scan that succeeds on a board without clashes returns a board without clashes |
| Solver.TryKeepsConsistent | sudokuGame/src/Sudoku.java:268-276 | a digit loop that succeeds on a board without clashes returns a board without clashes |
| Solver.SolveIsSound | sudokuGame/src/Sudoku.java:263-279 | on a board with values 0..9 and no clashes, a found board is a correct solution that keeps the givens |
| Solver.SolutionDigitIsSafe | sudokuGame/src/Sudoku.java:281-295 | the digit a correct solution puts in an empty cell is one isSafe admits |
| Solver.ScanFindsSolution | sudokuGame/src/Sudoku.java:264-278 | when a correct solution extends the board, the scan from any cell succeeds |
| Solver.TryFindsSolution | sudokuGame/src/Sudoku.java:268-276 | when a correct solution extends the board, the digit loop succeeds from any digit up to the solution's digit |
| Solver.SolveIsComplete | sudokuGame/src/Sudoku.java:263-279 | whenever some correct solution extends the board, solveSudoku succeeds |
| Solver.SolvableGivensAgree | sudokuGame/src/Sudoku.java:263-279 | a board that a correct solution extends has values 0..9 and no clashes |
| Solver.SolveSucceedsIffSolvable | sudokuGame/src/Sudoku.java:263-279 | on a board with values 0..9 and no clashes, solveSudoku succeeds iff some correct solution extends it |
| Solver.FullBoardIsNotChecked | sudokuGame/src/Sudoku.java:263-279 | a board of nothing but 1s is "solved" unchanged although isCorrectSolution rejects it |
| Catalog.Template | sudokuGame/src/Sudoku.java:126-132 | the preset the level selector copies for a level; no ensures of its own: WitnessIsValid and WitnessKeepsGivens give each preset a correct solution, PresetIsSolved shows the solver solves it |
| Catalog.WitnessIsValid | sudokuGame/src/Sudoku.java:21-55 | each preset has a solution board that isCorrectSolution accepts |
| Catalog.WitnessKeepsGivens | sudokuGame/src/Sudoku.java:21-55 | that solution keeps every given of its preset |
| Catalog.SpreadIsGroupOk | sudokuGame/src/Sudoku.java:342-345 | nine pairwise different digits 1..9 pass one sweep |
| CellText.TrimStart | sudokuGame/src/Sudoku.java:92 | the result is no longer than the text and starts with a character that is not blank |
| CellText.TrimEnd | sudokuGame/src/Sudoku.java:92 | the result is no longer than the text and ends with a character that is not blank |
| CellText.Trim | sudokuGame/src/Sudoku.java:92 | String.trim: the result is empty or starts and ends with a character above the space |
| CellText.TrimStartDropsBlanks | sudokuGame/src/Sudoku.java:92 | TrimStart leaves a suffix of the text and removes only blank characters |
| CellText.TrimEndDropsBlanks | sudokuGame/src/Sudoku.java:92 | TrimEnd leaves a prefix of the text and removes only blank characters |
| CellText.TrimRemovesBlanks | sudokuGame/src/Sudoku.java:92 | the trimmed text is a slice of the text and everything around it is blank |
| CellText.TrimEmptyIff | sudokuGame/src/Sudoku.java:95 | the trimmed text is empty iff every character of the text is blank |
| CellText.TrimIsEmpty | sudokuGame/src/Sudoku.java:166 | getText().trim().isEmpty() holds iff the text has only blank characters |
| CellText.TrimKeeps | sudokuGame/src/Sudoku.java:92 | a text without blank ends is its own trim |
| CellText.TrimIdempotent | sudokuGame/src/Sudoku.java:92 | trimming twice is trimming once |
| CellText.DigitChar | sudokuGame/src/Sudoku.java:105 | the character of digit d is a decimal digit whose code is '0' + d |
| CellText.Decimal | sudokuGame/src/Sudoku.java:246 | String.valueOf of a natural number is a non-empty string of digits without a leading zero |
| CellText.DecimalValue | sudokuGame/src/Sudoku.java:246 | reading the decimal digits of n gives n |
| CellText.ParseShowInt | sudokuGame/src/Sudoku.java:319 | Integer.parseInt reads back every int from its String.valueOf text |
| CellText.ShowInt | sudokuGame/src/Sudoku.java:246 | String.valueOf(int); no ensures of its own: ParseShowInt reads every int back from it, ShowIntNotBlank shows it is never blank, ParseShownDigit gives the one-character text of a digit |
| CellText.ParseInt | sudokuGame/src/Sudoku.java:319 | Integer.parseInt on ASCII digits, None for NumberFormatException; no ensures of its own: ParseShowInt shows it inverts ShowInt on the int range, and ParseCell's contract bounds what a cell reads as |
| CellText.ParseCell | sudokuGame/src/Sudoku.java:315-321 | a cell reads as 0..9 or fails, and it reads as 0 exactly when its text is all blank |
| CellText.ParseShownDigit | sudokuGame/src/Sudoku.java:246 | the text shown for a digit 1..9 is that one character and reads back as the digit |
| CellText.ShowIntNotBlank | sudokuGame/src/Sudoku.java:167 | the text written for any number is not blank, so the cell is no longer open |
| Moves.MoveStack.constructor | sudokuGame/src/Sudoku.java:19 | a new undo stack is empty |
| Moves.MoveStack.IsEmpty | sudokuGame/src/Sudoku.java:185 | moveStack.isEmpty(): the stack holds no move; no ensures of its own: it is the test by which SudokuGame.Sudoku.Undo returns false exactly when the stack was empty |
| Moves.MoveStack.Push | sudokuGame/src/Sudoku.java:203 | the move goes on top and nothing else changes |
| Moves.MoveStack.Pop | sudokuGame/src/Sudoku.java:186 | on a non-empty stack, returns the top move and removes it |
| Moves.MoveStack.Clear | sudokuGame/src/Sudoku.java:232 | the stack becomes empty |
| SudokuGame.Initial | sudokuGame/src/Sudoku.java:231-253 | the screen set up for a board has an empty undo stack, and every cell shows its given (blank for 0) and is editable exactly when its value is 0 |
| SudokuGame.GivenText | sudokuGame/src/Sudoku.java:241-246 | the text setup writes for a value, "" for 0; no ensures of its own: Initial's contract states every cell's text through it, and InitialReadsBack shows checkSolution reads it back as the value |
| SudokuGame.ReadBoard | sudokuGame/src/Sudoku.java:311-324 | the board checkSolution reads from the cell texts, None when a cell is unreadable; no ensures of its own: SudokuGame.Sudoku.CheckSolution is proved to compute it, and InitialReadsBack and AutoSolveIsChecked show what it reads |
| SudokuGame.Verdict | sudokuGame/src/Sudoku.java:310-335 | the message checkSolution shows: bad input, correct or incorrect; no ensures of its own: SudokuGame.Sudoku.CheckSolution returns it, FreshPresetAutoSolves and AutoSolveIsChecked show when it is Correct, UndoErasesGiven when it is not |
| SudokuGame.SolvedOf | sudokuGame/src/Sudoku.java:179-180 | the board copyBoard then solveSudoku leaves: the solution when one is found, else the board; no ensures of its own: SolvedOfSolvable and PresetIsSolved show it is a correct solution keeping the givens |
| SudokuGame.OpenFrom | sudokuGame/src/Sudoku.java:197-207 | the first open cell at or after (r, c): it is open and none between (r, c) and it is; None iff there is none |
| SudokuGame.FirstOpen | sudokuGame/src/Sudoku.java:197-207 | the cell Hint fills is open with no open cell before it; None iff no cell is open |
| SudokuGame.FirstOpenIs | sudokuGame/src/Sudoku.java:197-207 | an open cell with no open cell before it is the one Hint fills |
| SudokuGame.Hinted | sudokuGame/src/Sudoku.java:196-209 | the hinted screen is well formed: 9x9 and every move names a cell |
| SudokuGame.Undone | sudokuGame/src/Sudoku.java:184-193 | the undone screen is well formed |
| SudokuGame.AutoSolved | sudokuGame/src/Sudoku.java:162-174 | the auto-solved screen is well formed |
| SudokuGame.Typed | sudokuGame/src/Sudoku.java:91-113 | the screen after a keystroke is well formed |
| SudokuGame.AutoSolvedCell | sudokuGame/src/Sudoku.java:166-170 | an open cell gets its solved value and is locked; every other cell keeps its text and flag |
| SudokuGame.HintThenUndo | sudokuGame/src/Sudoku.java:184-209 | Undo right after a Hint that filled a cell restores the whole screen, undo stack included |
| SudokuGame.HintAdvances | sudokuGame/src/Sudoku.java:196-209 | after a hint, the next hint goes to a strictly later cell, or there is none |
| SudokuGame.HintWithoutOpenCell | sudokuGame/src/Sudoku.java:196-209 | with no open cell, Hint changes nothing (it only beeps) |
| SudokuGame.AutoSolveLeavesNoOpenCell | sudokuGame/src/Sudoku.java:162-174 | after Auto Solve no cell is open, so Hint only beeps |
| SudokuGame.AutoSolveIsChecked | sudokuGame/src/Sudoku.java:162-174 | with a correct solved board and every unfilled cell already reading as its solved value, the auto-solved screen is judged correct |
| SudokuGame.InitialReadsBack | sudokuGame/src/Sudoku.java:238-251 | checkSolution reads a freshly set up board back as that board |
| SudokuGame.SolvedOfSolvable | sudokuGame/src/Sudoku.java:177-181 | for a board some correct solution extends, the solved board is a correct solution keeping the givens |
| SudokuGame.PresetIsSolved | sudokuGame/src/Sudoku.java:21-55 | each preset is solved into a correct solution keeping its givens |
| SudokuGame.FreshPresetAutoSolves | sudokuGame/src/Sudoku.java:162-174 | Auto Solve on a freshly loaded preset gives a screen checkSolution accepts |
| SudokuGame.EasyFirstHint | sudokuGame/src/Sudoku.java:21-31 | the first hint on the Easy preset goes to row 0, column 2 |
| SudokuGame.TypedNormalizes | sudokuGame/src/Sudoku.java:91-113 | after a keystroke the cell is blank or one digit 1..9 and reads; a move is pushed exactly when the trimmed text was blank or began with 1..9 |
| SudokuGame.UndoAfterTyping | sudokuGame/src/Sudoku.java:97-107 | Undo after a keystroke that pushed a move blanks the cell and restores the undo stack |
| SudokuGame.UndoErasesGiven | sudokuGame/src/Sudoku.java:91-113 | on Easy, a key on the locked given 5 then Undo leaves that locked cell blank, and Auto Solve then no longer passes the check |
| SudokuGame.Sudoku.constructor | sudokuGame/src/Sudoku.java:60-223 | the window opens on the Easy preset, set up and solved |
| SudokuGame.Sudoku.SetupInitialPuzzle | sudokuGame/src/Sudoku.java:231-253 | the undo stack is emptied and the screen is Initial of the current board |
| SudokuGame.Sudoku.LoadRow | sudokuGame/src/Sudoku.java:239-250 | each cell of row r shows its given (blank for 0) and is editable iff the value is 0; no other row changes |
| SudokuGame.Sudoku.SolveCurrent | sudokuGame/src/Sudoku.java:179-180 | the solved board is a fresh array holding solveSudoku's result on a copy of the current board |
| SudokuGame.Sudoku.Reset | sudokuGame/src/Sudoku.java:177-181 | the current preset is shown again as set up, the undo stack is emptied and the solved board is recomputed |
| SudokuGame.Sudoku.SelectLevel | sudokuGame/src/Sudoku.java:124-137 | the chosen preset becomes the current board, is set up and solved |
| SudokuGame.Sudoku.AutoSolve | sudokuGame/src/Sudoku.java:162-174 | the screen becomes AutoSolved of the old screen and the solved board |
| SudokuGame.Sudoku.FillRow | sudokuGame/src/Sudoku.java:164-172 | every editable blank cell of row r gets its solved value and is locked; no other cell changes |
| SudokuGame.Sudoku.Hint | sudokuGame/src/Sudoku.java:196-209 | returns the first open cell, or None for the beep; the screen becomes Hinted of the old screen |
| SudokuGame.Sudoku.Undo | sudokuGame/src/Sudoku.java:184-193 | returns false for the beep iff the stack was empty; the screen becomes Undone of the old screen |
| SudokuGame.Sudoku.KeyReleased | sudokuGame/src/Sudoku.java:91-113 | the screen becomes Typed of the old screen at that cell for that text |
| SudokuGame.Sudoku.CheckSolution | sudokuGame/src/Sudoku.java:310-336 | the outcome is the Verdict of the cell texts: bad input, correct or incorrect |
| SudokuGame.Sudoku.ReadRow | sudokuGame/src/Sudoku.java:313-323 | false iff some cell of row r is neither blank nor a number 1..9; otherwise the row of the board holds the parsed values |

## Left out

- Swing is not modelled: layout, fonts, borders, cell colours, dialogs and the beep. The beeps of Hint and Undo are a `None` or `false` result; the key listener's beep is the branch of `Typed` that clears the cell without pushing a move; the dialog is the `Outcome`.
- The game timer is not modelled: `startTimer`, `stopTimer` and the seconds label (lines 146-151, 297-308) are clock and display, with nothing to prove.
- `main` and the Swing event thread are not modelled. Events arrive one at a time; there is no concurrency.
- SudokuGame.Sudoku.KeyReleased takes the field's text at key release as a parameter, because editing the field happens inside Swing. It and `SudokuGame.Typed` require a locked cell's text to be the text the cell shows, since Swing lets nobody edit a locked field.
- `CellText.ParseInt` accepts ASCII digits only. `Integer.parseInt` also accepts the decimal digits of other Unicode scripts. The model reads such a cell as bad input, where Java reads it as a number.
- `Moves.MoveStack.Pop` requires a non-empty stack. The only caller, Undo, checks `isEmpty` first, so `Stack.pop`'s exception cannot occur.
- The `Move` constructor's replacement of a null previous text by "" is not modelled: every caller passes a non-null string.
- The `m != null` test in Undo (line 187) is not modelled: null is never pushed.
- SudokuGame.Sudoku.AutoSolve, Hint, Undo and KeyReleased require only the shape invariant `Valid`, not `LevelLoaded`, which says the solved board is the solver's result on the current preset. The constructor, `Reset` and `SelectLevel` ensure `LevelLoaded`; the other methods keep it because their `modifies` clauses leave both boards alone.
- SudokuGame.Hinted ensures only that the screen stays well formed. What a hint does is stated by `HintThenUndo`, `HintAdvances`, `HintWithoutOpenCell` and `SudokuGame.Sudoku.Hint`.
- SudokuGame.Undone ensures only that the screen stays well formed. Its meaning is stated by `HintThenUndo`, `UndoAfterTyping` and `SudokuGame.Sudoku.Undo`.
- SudokuGame.AutoSolved ensures only that the screen stays well formed. Its cells are stated by `AutoSolvedCell`, `AutoSolveLeavesNoOpenCell` and `AutoSolveIsChecked`.
- SudokuGame.Typed ensures only that the screen stays well formed. Its effect is stated by `TypedNormalizes` and `UndoAfterTyping`.
- Solver.SolveSucceedsIffSolvable is stated only for boards with values 0..9 and no clashing givens. On other boards, solveSudoku can return true without a correct solution (`FullBoardIsNotChecked`).
- The model follows the code where a reader might expect otherwise:
  - a move records the previous text, and the key listener always records "";
  - the key listener also acts on locked cells;
  - the editable flags change under Auto Solve;
  - solveSudoku does not validate a full board.
