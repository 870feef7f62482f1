/** The backtracking solver: the first empty cell in row-major order is
    filled with the first digit 1..9 that isSafe admits and that lets the
    rest of the board be solved; placements that lead nowhere are undone. */
module Solver {
  import opened Boards
  import opened Constraints

  /** (i, j) comes before (r, c) in row-major order. */
  predicate Before(i: int, j: int, r: int, c: int) {
    i < r || (i == r && j < c)
  }

  /** Every cell before (r, c) in row-major order is non-empty. */
  predicate FilledBefore(g: Grid, r: int, c: int) {
    forall i, j :: 0 <= i < 9 && 0 <= j < 9 && Before(i, j, r, c) ==> g[i][j] != 0
  }

  /** s keeps every non-empty cell of g and holds a digit 1..9 in every
      cell that is empty in g. */
  predicate Completes(s: Grid, g: Grid) {
    forall i, j :: 0 <= i < 9 && 0 <= j < 9 ==>
      if g[i][j] == 0 then 1 <= s[i][j] <= 9 else s[i][j] == g[i][j]
  }

  /** What solveSudoku computes for the board g: the filled board when it
      returns true, None when it returns false. */
  function Solve(g: Grid): (res: Option<Grid>)
    ensures res.Some? ==> Completes(res.value, g)
    ensures res.Some? ==> forall i, j :: 0 <= i < 9 && 0 <= j < 9 ==> res.value[i][j] != 0
  {
    Scan(g, 0, 0)
  }

  /** The scan of solveSudoku's two loops from cell (r, c) on: the first
      empty cell met is handed to the digit loop; a board with no empty
      cell left is solved. */
  function Scan(g: Grid, r: int, c: int): (res: Option<Grid>)
    requires 0 <= r <= 9 && 0 <= c <= 9
    ensures res.Some? && FilledBefore(g, r, c) ==> Completes(res.value, g)
    decreases ZeroCount(g), 1, 100 - 10 * r - c
  {
    if r == 9 then Some(g)
    else if c == 9 then Scan(g, r + 1, 0)
    else if g[r][c] == 0 then Try(g, r, c, 1)
    else Scan(g, r, c + 1)
  }

  /** solveSudoku's digit loop at the empty cell (r, c), from digit `num`
      on: a safe digit is placed and the whole board scanned again; on
      failure the placement is retracted and the next digit tried. */
  function Try(g: Grid, r: int, c: int, num: int): (res: Option<Grid>)
    requires 0 <= r < 9 && 0 <= c < 9 && g[r][c] == 0 && 1 <= num <= 10
    ensures res.Some? ==> Completes(res.value, g)
    decreases ZeroCount(g), 0, 10 - num
  {
    if num == 10 then None
    else if Safe(g, r, c, num) then
      ZeroCountFill(g, r, c, num);
      var placed := Scan(Updated(g, r, c, num), 0, 0);
      if placed.Some? then CompletesPlaced(placed.value, g, r, c, num); placed
      else Try(g, r, c, num + 1)
    else Try(g, r, c, num + 1)
  }

  /** A completion of g with an empty cell filled is a completion of g. */
  lemma CompletesPlaced(s: Grid, g: Grid, r: int, c: int, v: int)
    requires 0 <= r < 9 && 0 <= c < 9 && g[r][c] == 0 && 1 <= v <= 9
    requires Completes(s, Updated(g, r, c, v))
    ensures Completes(s, g)
  {
  }

  /** Placing `num` at (r, c) leads to a solution. */
  predicate Works(g: Grid, r: int, c: int, num: int)
    requires 0 <= r < 9 && 0 <= c < 9 && g[r][c] == 0 && 1 <= num <= 9
  {
    Safe(g, r, c, num) && Solve(Updated(g, r, c, num)).Some?
  }

  /** solveSudoku, in place on the array: the board it leaves and the
      answer it gives are those of Solve; a false answer leaves the board
      as it was, every tentative placement having been reset to 0. */
  method SolveSudoku(board: array2<int>) returns (solved: bool)
    requires board.Length0 == 9 && board.Length1 == 9
    modifies board
    ensures solved == Solve(old(Snapshot(board))).Some?
    ensures Snapshot(board) ==
      if solved then Solve(old(Snapshot(board))).value else old(Snapshot(board))
    decreases ZeroCount(Snapshot(board)), 2
  {
    ghost var g: Grid := Snapshot(board);
    for r := 0 to 9
      invariant Snapshot(board) == g
      invariant Solve(g) == Scan(g, r, 0)
    {
      for c := 0 to 9
        invariant Snapshot(board) == g
        invariant Solve(g) == Scan(g, r, c)
      {
        if board[r, c] == 0 {
          solved := TryDigits(board, r, c);
          return;
        }
      }
    }
    return true;
  }

  /** The digit loop of solveSudoku at the empty cell (r, c): each digit
      that isSafe admits is placed and the board solved recursively; the
      first success is kept, and after a failure the cell is reset to 0. */
  method TryDigits(board: array2<int>, r: int, c: int) returns (solved: bool)
    requires board.Length0 == 9 && board.Length1 == 9
    requires 0 <= r < 9 && 0 <= c < 9 && board[r, c] == 0
    modifies board
    ensures solved == Try(old(Snapshot(board)), r, c, 1).Some?
    ensures Snapshot(board) ==
      if solved then Try(old(Snapshot(board)), r, c, 1).value else old(Snapshot(board))
    decreases ZeroCount(Snapshot(board)), 1
  {
    ghost var g: Grid := Snapshot(board);
    for num := 1 to 10
      invariant Snapshot(board) == g
      invariant Try(g, r, c, 1) == Try(g, r, c, num)
    {
      TryStep(g, r, c, num);
      var safe := IsSafe(board, r, c, num);
      if safe {
        var ok := PlaceAndSolve(board, r, c, num);
        if ok {
          return true;
        }
      }
    }
    return false;
  }

  /** One trial of the digit loop: num is placed at the empty cell (r, c)
      and the board solved recursively; on failure the cell is reset to 0. */
  method PlaceAndSolve(board: array2<int>, r: int, c: int, num: int) returns (ok: bool)
    requires board.Length0 == 9 && board.Length1 == 9
    requires 0 <= r < 9 && 0 <= c < 9 && board[r, c] == 0 && 1 <= num <= 9
    modifies board
    ensures ok == Solve(Updated(old(Snapshot(board)), r, c, num)).Some?
    ensures Snapshot(board) ==
      if ok then Solve(Updated(old(Snapshot(board)), r, c, num)).value else old(Snapshot(board))
    decreases ZeroCount(Snapshot(board)), 0
  {
    ghost var g: Grid := Snapshot(board);
    Store(board, r, c, num);
    ZeroCountFill(g, r, c, num);
    ok := SolveSudoku(board);
    if !ok {
      Store(board, r, c, 0);
      UpdatedBack(g, r, c, num);
    }
  }

  /** One step of the digit loop: a digit that works gives the solution
      of the board with it placed, any other digit passes to the next. */
  lemma TryStep(g: Grid, r: int, c: int, num: int)
    requires 0 <= r < 9 && 0 <= c < 9 && g[r][c] == 0 && 1 <= num <= 9
    ensures Try(g, r, c, num) ==
      if Works(g, r, c, num) then Solve(Updated(g, r, c, num)) else Try(g, r, c, num + 1)
  {
  }

  // ----- The choices the search makes -----

  /** A board without an empty cell is solved at once and left as it is. */
  lemma {:induction false} SolveBaseCase(g: Grid)
    requires forall i, j :: 0 <= i < 9 && 0 <= j < 9 ==> g[i][j] != 0
    ensures Solve(g) == Some(g)
  {
    ScanFull(g, 0, 0);
  }

  lemma {:induction false} ScanFull(g: Grid, r: int, c: int)
    requires 0 <= r <= 9 && 0 <= c <= 9
    requires forall i, j :: 0 <= i < 9 && 0 <= j < 9 ==> g[i][j] != 0
    ensures Scan(g, r, c) == Some(g)
    decreases 100 - 10 * r - c
  {
    if r < 9 {
      if c == 9 {
        ScanFull(g, r + 1, 0);
      } else {
        ScanFull(g, r, c + 1);
      }
    }
  }

  /** The cell the search decides first is the first empty cell in
      row-major order, and its digits are tried from 1 on. */
  lemma {:induction false} SolveFillsFirstEmptyCell(g: Grid, r: int, c: int)
    requires 0 <= r < 9 && 0 <= c < 9 && g[r][c] == 0 && FilledBefore(g, r, c)
    ensures Solve(g) == Try(g, r, c, 1)
  {
    ScanSkips(g, 0, 0, r, c);
  }

  lemma {:induction false} ScanSkips(g: Grid, r0: int, c0: int, r: int, c: int)
    requires 0 <= r < 9 && 0 <= c < 9 && g[r][c] == 0
    requires 0 <= r0 <= 9 && 0 <= c0 <= 9 && (r0 < r || (r0 == r && c0 <= c))
    requires forall i, j :: 0 <= i < 9 && 0 <= j < 9 && !Before(i, j, r0, c0) && Before(i, j, r, c) ==>
      g[i][j] != 0
    ensures Scan(g, r0, c0) == Try(g, r, c, 1)
    decreases 100 - 10 * r0 - c0
  {
    if r0 == r && c0 == c {
    } else if c0 == 9 {
      ScanSkips(g, r0 + 1, 0, r, c);
    } else {
      assert Before(r0, c0, r, c);
      ScanSkips(g, r0, c0 + 1, r, c);
    }
  }

  /** The digit loop fails exactly when no digit from `num` to 9 works. */
  lemma {:induction false} TryFailsIffNoDigitWorks(g: Grid, r: int, c: int, num: int)
    requires 0 <= r < 9 && 0 <= c < 9 && g[r][c] == 0 && 1 <= num <= 10
    ensures Try(g, r, c, num).None? <==> forall d :: num <= d <= 9 ==> !Works(g, r, c, d)
    decreases 10 - num
  {
    if num < 10 {
      TryStep(g, r, c, num);
      TryFailsIffNoDigitWorks(g, r, c, num + 1);
    }
  }

  /** d is the least digit from `num` on that works at (r, c). */
  predicate LeastWorking(g: Grid, r: int, c: int, num: int, d: int)
    requires 0 <= r < 9 && 0 <= c < 9 && g[r][c] == 0 && 1 <= num
  {
    num <= d <= 9 && Works(g, r, c, d) && forall e :: num <= e < d ==> !Works(g, r, c, e)
  }

  /** A digit that does not work does not change which digit is least. */
  lemma LeastWorkingStep(g: Grid, r: int, c: int, num: int, d: int)
    requires 0 <= r < 9 && 0 <= c < 9 && g[r][c] == 0 && 1 <= num <= 9
    requires !Works(g, r, c, num) && LeastWorking(g, r, c, num + 1, d)
    ensures LeastWorking(g, r, c, num, d)
  {
    forall e | num <= e < d
      ensures !Works(g, r, c, e)
    {
      if e != num {
        assert num + 1 <= e < d;
      }
    }
  }

  /** When the digit loop succeeds, its result is the solution reached
      from the least digit from `num` on that works. */
  lemma {:induction false} TryChoosesLeastDigit(g: Grid, r: int, c: int, num: int)
    requires 0 <= r < 9 && 0 <= c < 9 && g[r][c] == 0 && 1 <= num <= 10
    requires Try(g, r, c, num).Some?
    ensures exists d :: LeastWorking(g, r, c, num, d) && Try(g, r, c, num) == Solve(Updated(g, r, c, d))
    decreases 10 - num
  {
    assert num < 10;
    TryStep(g, r, c, num);
    if Works(g, r, c, num) {
      assert LeastWorking(g, r, c, num, num);
    } else {
      TryChoosesLeastDigit(g, r, c, num + 1);
      var d :| LeastWorking(g, r, c, num + 1, d) && Try(g, r, c, num + 1) == Solve(Updated(g, r, c, d));
      LeastWorkingStep(g, r, c, num, d);
    }
  }

  // ----- Soundness: a consistent board is solved correctly -----

  /** Placing a digit that isSafe admits at an empty cell keeps a
      consistent board consistent. */
  lemma SafePlacementKeepsConsistent(g: Grid, r: int, c: int, d: int)
    requires Consistent(g) && 0 <= r < 9 && 0 <= c < 9 && g[r][c] == 0 && 1 <= d <= 9
    requires Safe(g, r, c, d)
    ensures Consistent(Updated(g, r, c, d))
  {
    SafeAtEmptyCell(g, r, c, d);
    var h := Updated(g, r, c, d);
    forall r1, c1, r2, c2 |
      0 <= r1 < 9 && 0 <= c1 < 9 && 0 <= r2 < 9 && 0 <= c2 < 9 &&
      (r1 != r2 || c1 != c2) && SameGroup(r1, c1, r2, c2) && h[r1][c1] != 0
      ensures h[r1][c1] != h[r2][c2]
    {
      if r2 == r && c2 == c {
        assert SameGroup(r, c, r1, c1);
      }
    }
  }

  lemma {:induction false} ScanKeepsConsistent(g: Grid, r: int, c: int)
    requires Consistent(g) && 0 <= r <= 9 && 0 <= c <= 9
    ensures Scan(g, r, c).Some? ==> Consistent(Scan(g, r, c).value)
    decreases ZeroCount(g), 1, 100 - 10 * r - c
  {
    if r == 9 {
    } else if c == 9 {
      ScanKeepsConsistent(g, r + 1, 0);
    } else if g[r][c] == 0 {
      TryKeepsConsistent(g, r, c, 1);
    } else {
      ScanKeepsConsistent(g, r, c + 1);
    }
  }

  lemma {:induction false} TryKeepsConsistent(g: Grid, r: int, c: int, num: int)
    requires Consistent(g) && 0 <= r < 9 && 0 <= c < 9 && g[r][c] == 0 && 1 <= num <= 10
    ensures Try(g, r, c, num).Some? ==> Consistent(Try(g, r, c, num).value)
    decreases ZeroCount(g), 0, 10 - num
  {
    if num < 10 {
      if Safe(g, r, c, num) {
        ZeroCountFill(g, r, c, num);
        SafePlacementKeepsConsistent(g, r, c, num);
        ScanKeepsConsistent(Updated(g, r, c, num), 0, 0);
      }
      TryKeepsConsistent(g, r, c, num + 1);
    }
  }

  /** When the givens of a board of values 0..9 do not clash, a true answer
      of the solver comes with a board that isCorrectSolution accepts and
      that keeps every given. */
  lemma SolveIsSound(g: Grid)
    requires InRange(g) && Consistent(g) && Solve(g).Some?
    ensures ValidSolution(Solve(g).value) && Extends(Solve(g).value, g)
  {
    var s := Solve(g).value;
    ScanKeepsConsistent(g, 0, 0);
    assert AllDigits(s);
    ValidSolutionIff(s);
  }

  // ----- Completeness: a board with a solution is solved -----

  /** The digit that a solution puts in an empty cell is safe there. */
  lemma SolutionDigitIsSafe(g: Grid, s: Grid, r: int, c: int)
    requires ValidSolution(s) && Extends(s, g) && 0 <= r < 9 && 0 <= c < 9 && g[r][c] == 0
    ensures Safe(g, r, c, s[r][c])
  {
    SafeIffNoClash(g, r, c, s[r][c]);
    ValidSolutionIff(s);
    forall i, j | 0 <= i < 9 && 0 <= j < 9 && SameGroup(r, c, i, j)
      ensures g[i][j] != s[r][c]
    {
      if g[i][j] != 0 && (i != r || j != c) {
        ValidSolutionClash(s, r, c, i, j);
      }
    }
  }

  lemma {:induction false} ScanFindsSolution(g: Grid, r: int, c: int, s: Grid)
    requires ValidSolution(s) && Extends(s, g) && 0 <= r <= 9 && 0 <= c <= 9
    ensures Scan(g, r, c).Some?
    decreases ZeroCount(g), 1, 100 - 10 * r - c
  {
    if r == 9 {
    } else if c == 9 {
      ScanFindsSolution(g, r + 1, 0, s);
    } else if g[r][c] == 0 {
      ValidSolutionIff(s);
      TryFindsSolution(g, r, c, 1, s);
    } else {
      ScanFindsSolution(g, r, c + 1, s);
    }
  }

  lemma {:induction false} TryFindsSolution(g: Grid, r: int, c: int, num: int, s: Grid)
    requires ValidSolution(s) && Extends(s, g)
    requires 0 <= r < 9 && 0 <= c < 9 && g[r][c] == 0 && 1 <= num <= s[r][c] <= 9
    ensures Try(g, r, c, num).Some?
    decreases ZeroCount(g), 0, 10 - num
  {
    if num == s[r][c] {
      SolutionDigitIsSafe(g, s, r, c);
      ZeroCountFill(g, r, c, num);
      ScanFindsSolution(Updated(g, r, c, num), 0, 0, s);
    } else if !(Safe(g, r, c, num) && Solve(Updated(g, r, c, num)).Some?) {
      TryFindsSolution(g, r, c, num + 1, s);
    }
  }

  /** The search is exhaustive: whenever some correct solution keeps every
      given of g, the solver answers true. */
  lemma SolveIsComplete(g: Grid, s: Grid)
    requires ValidSolution(s) && Extends(s, g)
    ensures Solve(g).Some?
  {
    ScanFindsSolution(g, 0, 0, s);
  }

  /** A board that some correct solution extends has givens 1..9 that do
      not clash. */
  lemma SolvableGivensAgree(g: Grid, s: Grid)
    requires ValidSolution(s) && Extends(s, g)
    ensures InRange(g) && Consistent(g)
  {
    ValidSolutionIff(s);
  }

  /** For a board of values 0..9 whose givens do not clash, the solver
      answers true exactly when the board has a correct solution keeping
      its givens. */
  lemma SolveSucceedsIffSolvable(g: Grid)
    requires InRange(g) && Consistent(g)
    ensures Solve(g).Some? <==> exists s :: ValidSolution(s) && Extends(s, g)
  {
    if Solve(g).Some? {
      SolveIsSound(g);
    }
    if exists s :: ValidSolution(s) && Extends(s, g) {
      var s :| ValidSolution(s) && Extends(s, g);
      SolveIsComplete(g, s);
    }
  }

  /** A board filled with the digit 1 everywhere. */
  const AllOnes: Grid := seq(9, r => seq(9, c => 1))

  /** The givens are not checked: a full board is returned as solved even
      when isCorrectSolution rejects it. */
  lemma FullBoardIsNotChecked()
    ensures Solve(AllOnes) == Some(AllOnes) && !ValidSolution(AllOnes)
  {
    SolveBaseCase(AllOnes);
    assert Row(AllOnes, 0)[0] == Row(AllOnes, 0)[1];
  }
}
