/** The game window: the 81 text fields with their editable flags, the
    undo stack, the current and the solved board, and what the buttons and
    the key listener do to them. `Screen` is the visible state as a value;
    the transitions on it specify the methods of the class `Sudoku`. */
module SudokuGame {
  import opened Boards
  import opened Constraints
  import opened Solver
  import opened Catalog
  import opened CellText
  import opened Moves

  /** The three messages of checkSolution. */
  datatype Outcome = BadInput | Correct | Incorrect

  /** The texts of the cells, which of them are editable, and the undo stack. */
  datatype Screen = Screen(texts: seq<seq<string>>, editable: seq<seq<bool>>, moves: seq<Move>)

  predicate WellFormed(s: Screen) {
    Square(s.texts) && Square(s.editable) &&
    forall i :: 0 <= i < |s.moves| ==> 0 <= s.moves[i].row < 9 && 0 <= s.moves[i].col < 9
  }

  /** A cell Hint and Auto Solve may fill: editable and blank after
      trimming, that is, made of blank characters only. */
  predicate IsOpen(s: Screen, r: int, c: int)
    requires WellFormed(s) && 0 <= r < 9 && 0 <= c < 9
  {
    s.editable[r][c] && AllBlank(s.texts[r][c])
  }

  /** The text setupInitialPuzzle gives a cell holding `v`. */
  function GivenText(v: int): string {
    if v == 0 then "" else ShowInt(v)
  }

  /** The screen after setupInitialPuzzle: givens shown and locked, the other
      cells blank and editable, no moves. */
  function Initial(g: Grid): (s: Screen)
    ensures WellFormed(s) && s.moves == []
    ensures forall r, c :: 0 <= r < 9 && 0 <= c < 9 ==>
      s.texts[r][c] == GivenText(g[r][c]) && s.editable[r][c] == (g[r][c] == 0)
  {
    Screen(seq(9, r requires 0 <= r < 9 => seq(9, c requires 0 <= c < 9 => GivenText(g[r][c]))),
           seq(9, r requires 0 <= r < 9 => seq(9, c requires 0 <= c < 9 => g[r][c] == 0)),
           [])
  }

  /** The first open cell at or after (r, c) in row-major order. */
  function OpenFrom(s: Screen, r: int, c: int): (p: Option<Pos>)
    requires WellFormed(s) && 0 <= r <= 9 && 0 <= c <= 9
    ensures p.Some? ==>
      0 <= p.value.0 < 9 && 0 <= p.value.1 < 9 && IsOpen(s, p.value.0, p.value.1) &&
      !Before(p.value.0, p.value.1, r, c) &&
      forall i, j :: 0 <= i < 9 && 0 <= j < 9 && !Before(i, j, r, c) && Before(i, j, p.value.0, p.value.1) ==>
        !IsOpen(s, i, j)
    ensures p.None? ==>
      forall i, j :: 0 <= i < 9 && 0 <= j < 9 && !Before(i, j, r, c) ==> !IsOpen(s, i, j)
    decreases 100 - 10 * r - c
  {
    if r == 9 then None
    else if c == 9 then OpenFrom(s, r + 1, 0)
    else if IsOpen(s, r, c) then Some((r, c))
    else OpenFrom(s, r, c + 1)
  }

  /** The cell the Hint button fills: the first open cell in row-major
      order, or None when there is none (the beep). */
  function FirstOpen(s: Screen): (p: Option<Pos>)
    requires WellFormed(s)
    ensures p.Some? ==>
      0 <= p.value.0 < 9 && 0 <= p.value.1 < 9 && IsOpen(s, p.value.0, p.value.1) &&
      forall i, j :: 0 <= i < 9 && 0 <= j < 9 && Before(i, j, p.value.0, p.value.1) ==> !IsOpen(s, i, j)
    ensures p.None? <==> forall i, j :: 0 <= i < 9 && 0 <= j < 9 ==> !IsOpen(s, i, j)
  {
    OpenFrom(s, 0, 0)
  }

  /** An open cell with no open cell before it is the first open cell. */
  lemma FirstOpenIs(s: Screen, r: int, c: int)
    requires WellFormed(s) && 0 <= r < 9 && 0 <= c < 9 && IsOpen(s, r, c)
    requires forall i, j :: 0 <= i < 9 && 0 <= j < 9 && Before(i, j, r, c) ==> !IsOpen(s, i, j)
    ensures FirstOpen(s) == Some((r, c))
  {
  }

  /** The Hint button: the first open cell shows its solved value and the
      text it had is pushed; with no open cell nothing changes. */
  function Hinted(s: Screen, solved: Grid): (t: Screen)
    requires WellFormed(s)
    ensures WellFormed(t)
  {
    match FirstOpen(s)
    case None => s
    case Some((r, c)) =>
      Screen(Updated(s.texts, r, c, ShowInt(solved[r][c])), s.editable,
             s.moves + [Move(r, c, s.texts[r][c])])
  }

  /** The Undo button: the top move's text is put back in its cell; with an
      empty stack nothing changes (the beep). */
  function Undone(s: Screen): (t: Screen)
    requires WellFormed(s)
    ensures WellFormed(t)
  {
    if s.moves == [] then s
    else
      var m := s.moves[|s.moves| - 1];
      Screen(Updated(s.texts, m.row, m.col, m.prevValue), s.editable, s.moves[..|s.moves| - 1])
  }

  /** The Auto Solve button: every open cell shows its solved value and is
      locked; the other cells and the undo stack are left alone. */
  function AutoSolved(s: Screen, solved: Grid): (t: Screen)
    requires WellFormed(s)
    ensures WellFormed(t)
  {
    Screen(seq(9, r requires 0 <= r < 9 => seq(9, c requires 0 <= c < 9 =>
             if IsOpen(s, r, c) then ShowInt(solved[r][c]) else s.texts[r][c])),
           seq(9, r requires 0 <= r < 9 => seq(9, c requires 0 <= c < 9 =>
             s.editable[r][c] && !IsOpen(s, r, c))),
           s.moves)
  }

  /** The key listener of cell (r, c), given the field's text when the key
      is released: a blank text or one whose first character is 1..9
      leaves "" or that digit and pushes a move whose previous text is "";
      any other text is cleared and no move is pushed. The editable flag is
      not consulted; a locked field cannot be edited, so its text is the
      one it shows. */
  function Typed(s: Screen, r: int, c: int, text: string): (t: Screen)
    requires WellFormed(s) && 0 <= r < 9 && 0 <= c < 9
    requires !s.editable[r][c] ==> text == s.texts[r][c]
    ensures WellFormed(t)
  {
    var trimmed := Trim(text);
    if trimmed == "" then
      Screen(Updated(s.texts, r, c, ""), s.editable, s.moves + [Move(r, c, "")])
    else if '1' <= trimmed[0] <= '9' then
      Screen(Updated(s.texts, r, c, [trimmed[0]]), s.editable, s.moves + [Move(r, c, "")])
    else
      Screen(Updated(s.texts, r, c, ""), s.editable, s.moves)
  }

  /** The board checkSolution builds from the cell texts, or None when a
      cell is neither blank nor a number 1..9. */
  function ReadBoard(texts: seq<seq<string>>): Option<Grid>
    requires Square(texts)
  {
    if forall r, c :: 0 <= r < 9 && 0 <= c < 9 ==> ParseCell(texts[r][c]).Some? then
      var g: Grid := seq(9, r requires 0 <= r < 9 => seq(9, c requires 0 <= c < 9 => ParseCell(texts[r][c]).value));
      Some(g)
    else None
  }

  /** The message checkSolution shows for the cell texts. */
  function Verdict(texts: seq<seq<string>>): Outcome
    requires Square(texts)
  {
    match ReadBoard(texts)
    case None => BadInput
    case Some(g) => if ValidSolution(g) then Correct else Incorrect
  }

  /** The board solveSudoku leaves in a copy of g: the solution when it
      finds one, g itself otherwise. */
  function SolvedOf(g: Grid): Grid {
    if Solve(g).Some? then Solve(g).value else g
  }

  // ----- Properties of the transitions -----

  lemma AutoSolvedCell(s: Screen, solved: Grid, r: int, c: int)
    requires WellFormed(s) && 0 <= r < 9 && 0 <= c < 9
    ensures AutoSolved(s, solved).texts[r][c] == if IsOpen(s, r, c) then ShowInt(solved[r][c]) else s.texts[r][c]
    ensures AutoSolved(s, solved).editable[r][c] == (s.editable[r][c] && !IsOpen(s, r, c))
  {
  }

  /** Undo right after a hint puts the screen back as it was. */
  lemma HintThenUndo(s: Screen, solved: Grid)
    requires WellFormed(s) && FirstOpen(s).Some?
    ensures Undone(Hinted(s, solved)) == s
  {
    var (r, c) := FirstOpen(s).value;
    var t := Hinted(s, solved);
    assert t.moves[..|t.moves| - 1] == s.moves;
    SameCells(Updated(t.texts, r, c, s.texts[r][c]), s.texts);
  }

  /** A hint closes the cell it fills, so the next hint goes to a later cell. */
  lemma HintAdvances(s: Screen, solved: Grid)
    requires WellFormed(s) && FirstOpen(s).Some?
    ensures FirstOpen(Hinted(s, solved)).None? ||
      Before(FirstOpen(s).value.0, FirstOpen(s).value.1,
             FirstOpen(Hinted(s, solved)).value.0, FirstOpen(Hinted(s, solved)).value.1)
  {
    var (r, c) := FirstOpen(s).value;
    var t := Hinted(s, solved);
    ShowIntNotBlank(solved[r][c]);
    assert !IsOpen(t, r, c);
    assert forall i, j :: 0 <= i < 9 && 0 <= j < 9 && Before(i, j, r, c) ==> !IsOpen(t, i, j);
  }

  /** With no open cell, Hint changes nothing. */
  lemma HintWithoutOpenCell(s: Screen, solved: Grid)
    requires WellFormed(s)
    requires forall i, j :: 0 <= i < 9 && 0 <= j < 9 ==> !IsOpen(s, i, j)
    ensures Hinted(s, solved) == s
  {
  }

  /** After Auto Solve no cell is open: Hint only beeps. */
  lemma AutoSolveLeavesNoOpenCell(s: Screen, solved: Grid)
    requires WellFormed(s)
    ensures FirstOpen(AutoSolved(s, solved)).None?
  {
    var t := AutoSolved(s, solved);
    forall i, j | 0 <= i < 9 && 0 <= j < 9 ensures !IsOpen(t, i, j) {
      if IsOpen(s, i, j) {
        ShowIntNotBlank(solved[i][j]);
      }
    }
  }

  /** When the solved board is correct and every cell Auto Solve does not
      fill already reads as its solved value, the auto-solved screen passes
      the check. */
  lemma AutoSolveIsChecked(s: Screen, solved: Grid)
    requires WellFormed(s) && ValidSolution(solved)
    requires forall r, c :: 0 <= r < 9 && 0 <= c < 9 && !IsOpen(s, r, c) ==>
      ParseCell(s.texts[r][c]) == Some(solved[r][c])
    ensures Verdict(AutoSolved(s, solved).texts) == Correct
  {
    var t := AutoSolved(s, solved);
    ValidSolutionIff(solved);
    forall r, c | 0 <= r < 9 && 0 <= c < 9 ensures ParseCell(t.texts[r][c]) == Some(solved[r][c]) {
      if IsOpen(s, r, c) {
        ParseShownDigit(solved[r][c]);
      }
    }
    var g := ReadBoard(t.texts).value;
    SameCells(g, solved);
  }

  /** The check reads the initial screen of a board back as that board. */
  lemma InitialReadsBack(g: Grid)
    requires InRange(g)
    ensures ReadBoard(Initial(g).texts) == Some(g)
  {
    var s := Initial(g);
    forall r, c | 0 <= r < 9 && 0 <= c < 9 ensures ParseCell(s.texts[r][c]) == Some(g[r][c]) {
      if g[r][c] != 0 {
        ParseShownDigit(g[r][c]);
      }
    }
    SameCells(ReadBoard(s.texts).value, g);
  }

  /** A board that some correct solution extends is solved by solveSudoku
      into a correct solution keeping its givens. */
  lemma SolvedOfSolvable(g: Grid, s: Grid)
    requires ValidSolution(s) && Extends(s, g)
    ensures ValidSolution(SolvedOf(g)) && Extends(SolvedOf(g), g)
  {
    SolvableGivensAgree(g, s);
    SolveIsComplete(g, s);
    SolveIsSound(g);
  }

  /** Every preset is solved into a correct solution keeping its givens. */
  lemma PresetIsSolved(l: Level)
    ensures ValidSolution(SolvedOf(Template(l))) && Extends(SolvedOf(Template(l)), Template(l))
  {
    WitnessIsValid(l);
    WitnessKeepsGivens(l);
    SolvedOfSolvable(Template(l), Witness(l));
  }

  /** Auto Solve on a freshly set up preset gives a screen the check accepts. */
  lemma FreshPresetAutoSolves(l: Level)
    ensures Verdict(AutoSolved(Initial(Template(l)), SolvedOf(Template(l))).texts) == Correct
  {
    var g := Template(l);
    var solved := SolvedOf(g);
    var s := Initial(g);
    PresetIsSolved(l);
    SolvableGivensAgree(g, solved);
    forall r, c | 0 <= r < 9 && 0 <= c < 9 && !IsOpen(s, r, c)
      ensures ParseCell(s.texts[r][c]) == Some(solved[r][c])
    {
      ParseShownDigit(g[r][c]);
    }
    AutoSolveIsChecked(s, solved);
  }

  /** The first hint on the Easy preset goes to row 0, column 2. */
  lemma EasyFirstHint()
    ensures FirstOpen(Initial(EasyPuzzle)) == Some((0, 2))
  {
    var s := Initial(EasyPuzzle);
    ShowIntNotBlank(5);
    ShowIntNotBlank(3);
    FirstOpenIs(s, 0, 2);
  }

  /** After a keystroke the cell is blank or holds one digit 1..9, and a move
      is pushed exactly when the trimmed text was blank or began with 1..9. */
  lemma TypedNormalizes(s: Screen, r: int, c: int, text: string)
    requires WellFormed(s) && 0 <= r < 9 && 0 <= c < 9
    requires !s.editable[r][c] ==> text == s.texts[r][c]
    ensures Trim(text) == "" || '1' <= Trim(text)[0] <= '9' ==>
      Typed(s, r, c, text).moves == s.moves + [Move(r, c, "")]
    ensures !(Trim(text) == "" || '1' <= Trim(text)[0] <= '9') ==> Typed(s, r, c, text).moves == s.moves
    ensures ParseCell(Typed(s, r, c, text).texts[r][c]).Some?
    ensures Typed(s, r, c, text).texts[r][c] == "" ||
      (|Typed(s, r, c, text).texts[r][c]| == 1 && '1' <= Typed(s, r, c, text).texts[r][c][0] <= '9')
  {
    var t := Typed(s, r, c, text).texts[r][c];
    if t != "" {
      var d := t[0] as int - '0' as int;
      assert t == [DigitChar(d)];
      ParseShownDigit(d);
    }
  }

  /** Undo after a keystroke that pushed a move blanks the cell, whatever it
      held before: the pushed move carries "" as the previous text. */
  lemma UndoAfterTyping(s: Screen, r: int, c: int, text: string)
    requires WellFormed(s) && 0 <= r < 9 && 0 <= c < 9
    requires !s.editable[r][c] ==> text == s.texts[r][c]
    requires Trim(text) == "" || '1' <= Trim(text)[0] <= '9'
    ensures Undone(Typed(s, r, c, text)) == Screen(Updated(s.texts, r, c, ""), s.editable, s.moves)
  {
    var t := Typed(s, r, c, text);
    assert t.moves[..|t.moves| - 1] == s.moves;
    SameCells(Updated(t.texts, r, c, ""), Updated(s.texts, r, c, ""));
  }

  /** On the Easy preset, a keystroke on the given 5 at row 0, column 0
      followed by Undo leaves that locked cell blank, and Auto Solve then
      no longer yields a screen the check accepts. */
  lemma UndoErasesGiven()
    ensures Initial(EasyPuzzle).texts[0][0] == "5" && !Initial(EasyPuzzle).editable[0][0]
    ensures Undone(Typed(Initial(EasyPuzzle), 0, 0, "5")).texts[0][0] == ""
    ensures !Undone(Typed(Initial(EasyPuzzle), 0, 0, "5")).editable[0][0]
    ensures Verdict(AutoSolved(Undone(Typed(Initial(EasyPuzzle), 0, 0, "5")), SolvedOf(EasyPuzzle)).texts)
      != Correct
  {
    var s := Initial(EasyPuzzle);
    ShowIntNotBlank(5);
    TrimKeeps("5");
    UndoAfterTyping(s, 0, 0, "5");
    var u := Undone(Typed(s, 0, 0, "5"));
    var t := AutoSolved(u, SolvedOf(EasyPuzzle));
    assert !IsOpen(u, 0, 0);
    assert t.texts[0][0] == "";
    if ReadBoard(t.texts).Some? {
      var g := ReadBoard(t.texts).value;
      assert g[0][0] == 0;
      assert !GroupOk(Row(g, 0));
    }
  }

  // ----- The window -----

  class Sudoku {
    const cells: array2<string>
    const editable: array2<bool>
    const moveStack: MoveStack
    var currentPuzzle: array2<int>
    var solvedPuzzle: array2<int>
    var currentLevel: Level

    predicate Shaped()
      reads this
    {
      cells.Length0 == 9 && cells.Length1 == 9 && editable.Length0 == 9 && editable.Length1 == 9 &&
      currentPuzzle.Length0 == 9 && currentPuzzle.Length1 == 9 &&
      solvedPuzzle.Length0 == 9 && solvedPuzzle.Length1 == 9
    }

    /** The visible state: cell texts, editable flags, undo stack. */
    function State(): Screen
      requires Shaped()
      reads this, cells, editable, moveStack
    {
      Screen(Snapshot(cells), Snapshot(editable), moveStack.moves)
    }

    /** Every board is 9x9 and every move names a cell. */
    ghost predicate Valid()
      reads this, cells, editable, moveStack
    {
      Shaped() && WellFormed(State())
    }

    /** The current board is the level's preset and the solved board is
        what solveSudoku made of a copy of it. Only the methods that load a
        board change it; the others leave both boards alone. */
    ghost predicate LevelLoaded()
      reads this, currentPuzzle, solvedPuzzle
    {
      Shaped() &&
      Snapshot(currentPuzzle) == Template(currentLevel) &&
      Snapshot(solvedPuzzle) == SolvedOf(Template(currentLevel))
    }

    /** The window opens on the Easy preset. */
    constructor()
      ensures Valid() && LevelLoaded() && currentLevel == Easy && State() == Initial(EasyPuzzle)
    {
      var easy := NewBoard(EasyPuzzle);
      cells := new string[9, 9]((_, _) => "");
      editable := new bool[9, 9]((_, _) => true);
      moveStack := new MoveStack();
      currentPuzzle := easy;
      solvedPuzzle := new int[9, 9];
      currentLevel := Easy;
      new;
      SetupInitialPuzzle();
      SolveCurrent();
    }

    /** setupInitialPuzzle: the undo stack is cleared and every cell shows
        the current board's value, editable exactly when it is 0. */
    method SetupInitialPuzzle()
      requires Shaped()
      modifies cells, editable, moveStack
      ensures State() == Initial(Snapshot(currentPuzzle))
    {
      moveStack.Clear();
      ghost var g := Snapshot(currentPuzzle);
      for r := 0 to 9
        invariant moveStack.moves == []
        invariant forall i, j :: 0 <= i < r && 0 <= j < 9 ==>
          cells[i, j] == GivenText(currentPuzzle[i, j]) && editable[i, j] == (currentPuzzle[i, j] == 0)
      {
        LoadRow(r);
      }
      SameCells(Snapshot(cells), Initial(g).texts);
      SameCells(Snapshot(editable), Initial(g).editable);
    }

    /** solvedPuzzle = copyBoard(currentPuzzle); solveSudoku(solvedPuzzle). */
    method SolveCurrent()
      requires Shaped()
      modifies this
      ensures Shaped() && solvedPuzzle.Length0 == 9 && fresh(solvedPuzzle)
      ensures Snapshot(solvedPuzzle) == SolvedOf(Snapshot(currentPuzzle))
      ensures currentPuzzle == old(currentPuzzle) && currentLevel == old(currentLevel)
    {
      solvedPuzzle := CopyBoard(currentPuzzle);
      var _ := SolveSudoku(solvedPuzzle);
    }

    /** The Reset button: the current preset is set up again and re-solved. */
    method Reset()
      requires Valid() && LevelLoaded()
      modifies this, cells, editable, moveStack
      ensures Valid() && LevelLoaded() && currentLevel == old(currentLevel)
      ensures State() == Initial(Template(currentLevel))
    {
      SetupInitialPuzzle();
      SolveCurrent();
    }

    /** The level selector: the chosen preset is copied, set up and solved. */
    method SelectLevel(sel: Level)
      requires Shaped()
      modifies this, cells, editable, moveStack
      ensures Valid() && LevelLoaded() && currentLevel == sel && State() == Initial(Template(sel))
    {
      currentPuzzle := NewBoard(Template(sel));
      currentLevel := sel;
      SetupInitialPuzzle();
      SolveCurrent();
    }

    /** One row of the board-filling loop of setupInitialPuzzle: an empty
        square becomes an editable blank cell, a given one a locked cell
        showing its digit; no other row changes. */
    method LoadRow(r: int)
      requires Shaped() && 0 <= r < 9
      modifies cells, editable
      ensures forall j :: 0 <= j < 9 ==>
        cells[r, j] == GivenText(currentPuzzle[r, j]) && editable[r, j] == (currentPuzzle[r, j] == 0)
      ensures forall i, j :: 0 <= i < 9 && i != r && 0 <= j < 9 ==>
        cells[i, j] == old(cells[i, j]) && editable[i, j] == old(editable[i, j])
    {
      for c := 0 to 9
        invariant forall i, j :: 0 <= i < 9 && i != r && 0 <= j < 9 ==>
          cells[i, j] == old(cells[i, j]) && editable[i, j] == old(editable[i, j])
        invariant forall j :: 0 <= j < c ==>
          cells[r, j] == GivenText(currentPuzzle[r, j]) && editable[r, j] == (currentPuzzle[r, j] == 0)
      {
        var val := currentPuzzle[r, c];
        if val == 0 {
          cells[r, c] := "";
          editable[r, c] := true;
        } else {
          cells[r, c] := ShowInt(val);
          editable[r, c] := false;
        }
      }
    }

    /** The Auto Solve button. */
    method AutoSolve()
      requires Valid()
      modifies cells, editable
      ensures Valid() && State() == AutoSolved(old(State()), Snapshot(solvedPuzzle))
    {
      ghost var s := State();
      ghost var solved := Snapshot(solvedPuzzle);
      ghost var texts := AutoSolved(s, solved).texts;
      ghost var locks := AutoSolved(s, solved).editable;
      for r := 0 to 9
        invariant forall i, j :: 0 <= i < r && 0 <= j < 9 ==>
          cells[i, j] == texts[i][j] && editable[i, j] == locks[i][j]
        invariant forall i, j :: r <= i < 9 && 0 <= j < 9 ==>
          cells[i, j] == s.texts[i][j] && editable[i, j] == s.editable[i][j]
      {
        FillRow(r);
        forall j | 0 <= j < 9
          ensures cells[r, j] == texts[r][j] && editable[r, j] == locks[r][j]
        {
          AutoSolvedCell(s, solved, r, j);
        }
      }
      SameCells(Snapshot(cells), texts);
      SameCells(Snapshot(editable), locks);
    }

    /** One row of the Auto Solve loop: every editable cell of row r that
        is blank after trimming gets its solved digit and is locked; no
        other cell changes. */
    method FillRow(r: int)
      requires Shaped() && 0 <= r < 9
      modifies cells, editable
      ensures forall j :: 0 <= j < 9 ==>
        cells[r, j] == (if old(editable[r, j]) && AllBlank(old(cells[r, j])) then ShowInt(solvedPuzzle[r, j]) else old(cells[r, j]))
      ensures forall j :: 0 <= j < 9 ==> editable[r, j] == (old(editable[r, j]) && !AllBlank(old(cells[r, j])))
      ensures forall i, j :: 0 <= i < 9 && i != r && 0 <= j < 9 ==>
        cells[i, j] == old(cells[i, j]) && editable[i, j] == old(editable[i, j])
    {
      for c := 0 to 9
        invariant forall i, j :: 0 <= i < 9 && i != r && 0 <= j < 9 ==>
          cells[i, j] == old(cells[i, j]) && editable[i, j] == old(editable[i, j])
        invariant forall j :: 0 <= j < c ==>
          cells[r, j] == (if old(editable[r, j]) && AllBlank(old(cells[r, j])) then ShowInt(solvedPuzzle[r, j]) else old(cells[r, j]))
        invariant forall j :: 0 <= j < c ==> editable[r, j] == (old(editable[r, j]) && !AllBlank(old(cells[r, j])))
        invariant forall j :: c <= j < 9 ==> cells[r, j] == old(cells[r, j]) && editable[r, j] == old(editable[r, j])
      {
        if editable[r, c] && TrimIsEmpty(cells[r, c]) {
          cells[r, c] := ShowInt(solvedPuzzle[r, c]);
          editable[r, c] := false;
        }
      }
    }

    /** The Hint button; the filled cell is returned, None for the beep. */
    method Hint() returns (hint: Option<Pos>)
      requires Valid()
      modifies cells, moveStack
      ensures Valid() && hint == FirstOpen(old(State()))
      ensures State() == Hinted(old(State()), Snapshot(solvedPuzzle))
    {
      ghost var s := State();
      for r := 0 to 9
        invariant unchanged(cells, moveStack)
        invariant forall i, j :: 0 <= i < r && 0 <= j < 9 ==> !IsOpen(s, i, j)
      {
        for c := 0 to 9
          invariant unchanged(cells, moveStack)
          invariant forall i, j :: 0 <= i < r && 0 <= j < 9 ==> !IsOpen(s, i, j)
          invariant forall j :: 0 <= j < c ==> !IsOpen(s, r, j)
        {
          if editable[r, c] && TrimIsEmpty(cells[r, c]) {
            FirstOpenIs(s, r, c);
            var prev := cells[r, c];
            cells[r, c] := ShowInt(solvedPuzzle[r, c]);
            moveStack.Push(Move(r, c, prev));
            SameCells(Snapshot(cells), Hinted(s, Snapshot(solvedPuzzle)).texts);
            return Some((r, c));
          }
        }
      }
      hint := None;
    }

    /** The Undo button; false for the beep on an empty stack. */
    method Undo() returns (undone: bool)
      requires Valid()
      modifies cells, moveStack
      ensures Valid() && undone == (old(moveStack.moves) != [])
      ensures State() == Undone(old(State()))
    {
      ghost var s := State();
      if !moveStack.IsEmpty() {
        var m := moveStack.Pop();
        assert m == s.moves[|s.moves| - 1];
        cells[m.row, m.col] := m.prevValue;
        SameCells(Snapshot(cells), Undone(s).texts);
        undone := true;
      } else {
        undone := false;
      }
    }

    /** The key listener of cell (r, c), given the field's text when the key
        is released; a locked field still shows its own text. */
    method KeyReleased(r: int, c: int, text: string)
      requires Valid() && 0 <= r < 9 && 0 <= c < 9
      requires !editable[r, c] ==> text == cells[r, c]
      modifies cells, moveStack
      ensures Valid() && State() == Typed(old(State()), r, c, text)
    {
      ghost var s := State();
      var trimmed := Trim(text);
      if trimmed == "" {
        moveStack.Push(Move(r, c, ""));
        cells[r, c] := "";
      } else if '1' <= trimmed[0] <= '9' {
        cells[r, c] := [trimmed[0]];
        moveStack.Push(Move(r, c, ""));
      } else {
        cells[r, c] := "";
      }
      SameCells(Snapshot(cells), Typed(s, r, c, text).texts);
    }

    /** The Check button: reads every cell into a fresh board and runs
        isCorrectSolution on it. */
    method CheckSolution() returns (outcome: Outcome)
      requires Shaped()
      ensures outcome == Verdict(Snapshot(cells))
    {
      ghost var texts := Snapshot(cells);
      var board := new int[9, 9];
      for r := 0 to 9
        invariant forall i, j :: 0 <= i < r && 0 <= j < 9 ==>
          ParseCell(cells[i, j]) == Some(board[i, j])
      {
        var ok := ReadRow(board, r);
        if !ok {
          ghost var c :| 0 <= c < 9 && ParseCell(cells[r, c]).None?;
          assert ParseCell(texts[r][c]).None?;
          return BadInput;
        }
      }
      SameCells(Snapshot(board), ReadBoard(texts).value);
      var correct := IsCorrectSolution(board);
      outcome := if correct then Correct else Incorrect;
    }

    /** One row of the reading loop of checkSolution: false as soon as a
        cell of row r is neither blank nor a number 1..9; otherwise the
        row of the board holds the numbers read. No other row changes. */
    method ReadRow(board: array2<int>, r: int) returns (ok: bool)
      requires Shaped() && board.Length0 == 9 && board.Length1 == 9 && 0 <= r < 9
      modifies board
      ensures ok <==> forall j :: 0 <= j < 9 ==> ParseCell(cells[r, j]).Some?
      ensures ok ==> forall j :: 0 <= j < 9 ==> ParseCell(cells[r, j]) == Some(board[r, j])
      ensures forall i, j :: 0 <= i < 9 && i != r && 0 <= j < 9 ==> board[i, j] == old(board[i, j])
    {
      for c := 0 to 9
        invariant forall i, j :: 0 <= i < 9 && i != r && 0 <= j < 9 ==> board[i, j] == old(board[i, j])
        invariant forall j :: 0 <= j < c ==> ParseCell(cells[r, j]) == Some(board[r, j])
      {
        var v := ParseCell(cells[r, c]);
        if v.None? {
          return false;
        }
        board[r, c] := v.value;
        assert ParseCell(cells[r, c]) == Some(board[r, c]);
      }
      return true;
    }
  }
}
