/** The 9x9 board of the puzzle, as values (for specifications) and as
    two-dimensional arrays (the `int[][]` boards the game mutates). */
module Boards {

  datatype Option<T> = None | Some(value: T)

  /** Nine rows of nine entries each. */
  predicate Square<T>(m: seq<seq<T>>) {
    |m| == 9 && forall r :: 0 <= r < 9 ==> |m[r]| == 9
  }

  /** A board as a value: 0 marks an empty cell, 1..9 a digit. */
  type Grid = g: seq<seq<int>> | Square(g) witness seq(9, r => seq(9, c => 0))

  /** The (r, c) cell of a board; rows and columns are numbered 0..8. */
  type Pos = (int, int)

  /** The value of a 9x9 array, row by row. */
  function Snapshot<T>(a: array2<T>): (m: seq<seq<T>>)
    requires a.Length0 == 9 && a.Length1 == 9
    reads a
    ensures Square(m)
    ensures forall r, c :: 0 <= r < 9 && 0 <= c < 9 ==> m[r][c] == a[r, c]
  {
    seq(9, r requires 0 <= r < 9 reads a => seq(9, c requires 0 <= c < 9 reads a => a[r, c]))
  }

  /** `m` with the cell (r, c) replaced by `v`. */
  function Updated<T>(m: seq<seq<T>>, r: int, c: int, v: T): (u: seq<seq<T>>)
    requires Square(m) && 0 <= r < 9 && 0 <= c < 9
    ensures Square(u)
    ensures forall i, j :: 0 <= i < 9 && 0 <= j < 9 ==>
              u[i][j] == if i == r && j == c then v else m[i][j]
  {
    m[r := m[r][c := v]]
  }

  /** Two 9x9 matrices with the same cells are the same value. */
  lemma SameCells<T>(a: seq<seq<T>>, b: seq<seq<T>>)
    requires Square(a) && Square(b)
    requires forall r, c :: 0 <= r < 9 && 0 <= c < 9 ==> a[r][c] == b[r][c]
    ensures a == b
  {
    assert forall r | 0 <= r < 9 :: a[r] == b[r];
  }

  /** Writing v back over a cell that held g[r][c] restores g. */
  lemma UpdatedBack<T>(g: seq<seq<T>>, r: int, c: int, v: T)
    requires Square(g) && 0 <= r < 9 && 0 <= c < 9
    ensures Updated(Updated(g, r, c, v), r, c, g[r][c]) == g
  {
    SameCells(Updated(Updated(g, r, c, v), r, c, g[r][c]), g);
  }

  /** board[r][c] = v on a 9x9 array: the new cells are the old ones with
      (r, c) set to v. */
  method Store(a: array2<int>, r: int, c: int, v: int)
    requires a.Length0 == 9 && a.Length1 == 9 && 0 <= r < 9 && 0 <= c < 9
    modifies a
    ensures Snapshot(a) == Updated(old(Snapshot(a)), r, c, v)
  {
    ghost var before := Snapshot(a);
    a[r, c] := v;
    SameCells(Snapshot(a), Updated(before, r, c, v));
  }

  /** The number of empty (0) cells: the measure that the solver's
      recursion decreases. */
  function ZeroCount(g: seq<seq<int>>): nat {
    if g == [] then 0 else multiset(g[0])[0] + ZeroCount(g[1..])
  }

  /** Filling an empty cell with a non-zero value removes exactly one empty cell. */
  lemma {:induction false} ZeroCountFill(g: seq<seq<int>>, r: int, c: int, v: int)
    requires 0 <= r < |g| && 0 <= c < |g[r]| && g[r][c] == 0 && v != 0
    ensures ZeroCount(g[r := g[r][c := v]]) == ZeroCount(g) - 1
  {
    var h := g[r := g[r][c := v]];
    if r == 0 {
      assert h[1..] == g[1..];
      assert multiset(h[0])[0] == multiset(g[0])[0] - 1;
    } else {
      assert h[1..] == g[1..][r - 1 := g[r][c := v]];
      ZeroCountFill(g[1..], r - 1, c, v);
    }
  }

  /** copyBoard: a fresh 9x9 array holding the same cells as `board`. */
  method CopyBoard(board: array2<int>) returns (copy: array2<int>)
    requires board.Length0 == 9 && board.Length1 == 9
    ensures fresh(copy) && copy.Length0 == 9 && copy.Length1 == 9
    ensures Snapshot(copy) == Snapshot(board)
  {
    copy := new int[9, 9];
    for r := 0 to 9
      invariant forall i, j :: 0 <= i < r && 0 <= j < 9 ==> copy[i, j] == board[i, j]
    {
      for c := 0 to 9
        invariant forall i, j :: 0 <= i < r && 0 <= j < 9 ==> copy[i, j] == board[i, j]
        invariant forall j :: 0 <= j < c ==> copy[r, j] == board[r, j]
      {
        copy[r, c] := board[r, c];
      }
    }
    SameCells(Snapshot(copy), Snapshot(board));
  }

  /** A fresh 9x9 array holding the cells of the value `g`: an array
      initialiser followed by copyBoard. */
  method NewBoard(g: Grid) returns (board: array2<int>)
    ensures fresh(board) && board.Length0 == 9 && board.Length1 == 9
    ensures Snapshot(board) == g
  {
    board := new int[9, 9];
    for r := 0 to 9
      invariant forall i, j :: 0 <= i < r && 0 <= j < 9 ==> board[i, j] == g[i][j]
    {
      for c := 0 to 9
        invariant forall i, j :: 0 <= i < r && 0 <= j < 9 ==> board[i, j] == g[i][j]
        invariant forall j :: 0 <= j < c ==> board[r, j] == g[r][j]
      {
        board[r, c] := g[r][c];
      }
    }
    SameCells(Snapshot(board), g);
  }

  /** Writing into a copy leaves the original alone: the copy is a different array. */
  method CopyIsIndependent(board: array2<int>, r: int, c: int, v: int)
    returns (copy: array2<int>)
    requires board.Length0 == 9 && board.Length1 == 9 && 0 <= r < 9 && 0 <= c < 9
    ensures Snapshot(board) == old(Snapshot(board))
    ensures copy != board && copy.Length0 == 9 && copy.Length1 == 9
    ensures Snapshot(copy) == Updated(Snapshot(board), r, c, v)
  {
    copy := CopyBoard(board);
    copy[r, c] := v;
    SameCells(Snapshot(copy), Updated(Snapshot(board), r, c, v));
  }
}
