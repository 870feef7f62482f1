/** The constraint checker: whether a digit may be placed in a cell, and
    whether a filled board is a correct solution. */
module Constraints {
  import opened Boards

  /** The first row (column) of the block band that row (column) i lies in. */
  function BandStart(i: int): int {
    if i < 3 then 0 else if i < 6 then 3 else 6
  }

  /** isSafe computes a band's start as i - i % 3. */
  lemma BandStartIsRemainder(i: int)
    requires 0 <= i < 9
    ensures i - i % 3 == BandStart(i)
  {
  }

  /** i is the first row (column) of a band of three: 0, 3 or 6. */
  predicate IsBand(i: int) {
    i == 0 || i == 3 || i == 6
  }

  /** (r1, c1) and (r2, c2) lie in the same 3x3 block. */
  predicate SameBlock(r1: int, c1: int, r2: int, c2: int) {
    BandStart(r1) == BandStart(r2) && BandStart(c1) == BandStart(c2)
  }

  /** (r1, c1) and (r2, c2) share a row, a column or a block. */
  predicate SameGroup(r1: int, c1: int, r2: int, c2: int) {
    r1 == r2 || c1 == c2 || SameBlock(r1, c1, r2, c2)
  }

  /** The condition isSafe decides: `num` is nowhere in row `row`, nowhere
      in column `col`, and nowhere in the block whose top-left cell is
      (row - row % 3, col - col % 3). The cell (row, col) itself is among
      the cells compared. */
  predicate Safe(g: Grid, row: int, col: int, num: int)
    requires 0 <= row < 9 && 0 <= col < 9
  {
    (forall k :: 0 <= k < 9 ==> g[row][k] != num && g[k][col] != num) &&
    forall r, c ::
      row - row % 3 <= r < row - row % 3 + 3 && col - col % 3 <= c < col - col % 3 + 3 ==>
        g[r][c] != num
  }

  /** The nine values of row r, left to right. */
  function Row(g: Grid, r: int): seq<int>
    requires 0 <= r < 9
  {
    g[r]
  }

  /** The nine values of column c, top to bottom. */
  function Column(g: Grid, c: int): seq<int>
    requires 0 <= c < 9
  {
    seq(9, r requires 0 <= r < 9 => g[r][c])
  }

  /** The nine values of the block with top-left cell (br, bc), row by row. */
  function Block(g: Grid, br: int, bc: int): seq<int>
    requires 0 <= br <= 6 && 0 <= bc <= 6
  {
    g[br][bc..bc + 3] + g[br + 1][bc..bc + 3] + g[br + 2][bc..bc + 3]
  }

  /** A group passes a sweep of isCorrectSolution: every value is in 1..9
      and no value is repeated. */
  predicate GroupOk(s: seq<int>) {
    (forall i :: 0 <= i < |s| ==> 1 <= s[i] <= 9) &&
    forall i, j :: 0 <= i < j < |s| ==> s[i] != s[j]
  }

  /** What isCorrectSolution accepts: all 9 rows, all 9 columns and all 9
      blocks pass. */
  predicate ValidSolution(g: Grid) {
    (forall r :: 0 <= r < 9 ==> GroupOk(Row(g, r))) &&
    (forall c :: 0 <= c < 9 ==> GroupOk(Column(g, c))) &&
    forall br, bc :: 0 <= br < 9 && 0 <= bc < 9 && IsBand(br) && IsBand(bc) ==>
      GroupOk(Block(g, br, bc))
  }

  /** Every cell holds a digit 1..9. */
  predicate AllDigits(g: Grid) {
    forall r, c :: 0 <= r < 9 && 0 <= c < 9 ==> 1 <= g[r][c] <= 9
  }

  /** No two different cells of one row, column or block hold the same
      non-zero value (the empty cells are ignored). */
  predicate Consistent(g: Grid) {
    forall r1, c1, r2, c2 ::
      0 <= r1 < 9 && 0 <= c1 < 9 && 0 <= r2 < 9 && 0 <= c2 < 9 &&
      (r1 != r2 || c1 != c2) && SameGroup(r1, c1, r2, c2) && g[r1][c1] != 0 ==>
        g[r1][c1] != g[r2][c2]
  }

  /** isSafe holds exactly when no cell sharing a row, a column or a block
      with (row, col), the cell itself included, holds `num`. */
  lemma SafeIffNoClash(g: Grid, row: int, col: int, num: int)
    requires 0 <= row < 9 && 0 <= col < 9
    ensures Safe(g, row, col, num) <==>
      forall r, c :: 0 <= r < 9 && 0 <= c < 9 && SameGroup(row, col, r, c) ==> g[r][c] != num
  {
    if Safe(g, row, col, num) {
      forall r, c | 0 <= r < 9 && 0 <= c < 9 && SameGroup(row, col, r, c)
        ensures g[r][c] != num
      {
        if r != row && c != col {
          assert row - row % 3 <= r < row - row % 3 + 3;
          assert col - col % 3 <= c < col - col % 3 + 3;
        }
      }
    }
    if forall r, c :: 0 <= r < 9 && 0 <= c < 9 && SameGroup(row, col, r, c) ==> g[r][c] != num {
      forall r, c | row - row % 3 <= r < row - row % 3 + 3 && col - col % 3 <= c < col - col % 3 + 3
        ensures g[r][c] != num
      {
        assert SameBlock(row, col, r, c);
      }
      forall k | 0 <= k < 9 ensures g[row][k] != num && g[k][col] != num {
        assert SameGroup(row, col, row, k) && SameGroup(row, col, k, col);
      }
    }
  }

  /** At an empty cell, comparing the cell with itself changes nothing:
      isSafe then holds exactly when no OTHER cell of its row, column or
      block holds the digit. */
  lemma SafeAtEmptyCell(g: Grid, row: int, col: int, num: int)
    requires 0 <= row < 9 && 0 <= col < 9 && g[row][col] == 0 && 1 <= num <= 9
    ensures Safe(g, row, col, num) <==>
      forall r, c ::
        (0 <= r < 9 && 0 <= c < 9 && (r != row || c != col) && SameGroup(row, col, r, c)) ==>
          g[r][c] != num
  {
    SafeIffNoClash(g, row, col, num);
  }

  /** The three sweeps together accept exactly the boards whose cells are
      all digits 1..9 with no repetition in any row, column or block. */
  lemma ValidSolutionIff(g: Grid)
    ensures ValidSolution(g) <==> AllDigits(g) && Consistent(g)
  {
    if ValidSolution(g) {
      forall r, c | 0 <= r < 9 && 0 <= c < 9 ensures 1 <= g[r][c] <= 9 {
        assert GroupOk(Row(g, r));
      }
      forall r1, c1, r2, c2 |
        0 <= r1 < 9 && 0 <= c1 < 9 && 0 <= r2 < 9 && 0 <= c2 < 9 &&
        (r1 != r2 || c1 != c2) && SameGroup(r1, c1, r2, c2) && g[r1][c1] != 0
        ensures g[r1][c1] != g[r2][c2]
      {
        ValidSolutionClash(g, r1, c1, r2, c2);
      }
    }
    if AllDigits(g) && Consistent(g) {
      forall r | 0 <= r < 9 ensures GroupOk(Row(g, r)) {
        forall i, j | 0 <= i < j < 9 ensures Row(g, r)[i] != Row(g, r)[j] {
          assert SameGroup(r, i, r, j);
        }
      }
      forall c | 0 <= c < 9 ensures GroupOk(Column(g, c)) {
        forall i, j | 0 <= i < j < 9 ensures Column(g, c)[i] != Column(g, c)[j] {
          assert SameGroup(i, c, j, c);
        }
      }
      forall br, bc | IsBand(br) && IsBand(bc)
        ensures GroupOk(Block(g, br, bc))
      {
        ConsistentBlock(g, br, bc);
      }
    }
  }

  /** Two different cells of one group clash in no valid solution. */
  lemma ValidSolutionClash(g: Grid, r1: int, c1: int, r2: int, c2: int)
    requires ValidSolution(g)
    requires 0 <= r1 < 9 && 0 <= c1 < 9 && 0 <= r2 < 9 && 0 <= c2 < 9
    requires (r1 != r2 || c1 != c2) && SameGroup(r1, c1, r2, c2)
    ensures g[r1][c1] != g[r2][c2]
  {
    if r1 == r2 {
      assert GroupOk(Row(g, r1));
      if c1 > c2 { assert Row(g, r1)[c2] != Row(g, r1)[c1]; }
    } else if c1 == c2 {
      assert GroupOk(Column(g, c1));
      if r1 < r2 { assert Column(g, c1)[r1] != Column(g, c1)[r2]; }
      else { assert Column(g, c1)[r2] != Column(g, c1)[r1]; }
    } else {
      var br, bc := BandStart(r1), BandStart(c1);
      assert GroupOk(Block(g, br, bc));
      BlockAt(g, br, bc, r1 - br, c1 - bc);
      BlockAt(g, br, bc, r2 - br, c2 - bc);
      var k1, k2 := 3 * (r1 - br) + (c1 - bc), 3 * (r2 - br) + (c2 - bc);
      assert k1 != k2;
      if k1 < k2 { assert Block(g, br, bc)[k1] != Block(g, br, bc)[k2]; }
      else { assert Block(g, br, bc)[k2] != Block(g, br, bc)[k1]; }
    }
  }

  /** The cell (br + i, bc + j) sits at position 3 * i + j of its block. */
  lemma BlockAt(g: Grid, br: int, bc: int, i: int, j: int)
    requires 0 <= br <= 6 && 0 <= bc <= 6 && 0 <= i < 3 && 0 <= j < 3
    ensures |Block(g, br, bc)| == 9 && Block(g, br, bc)[3 * i + j] == g[br + i][bc + j]
  {
  }

  /** Position p of a block, split into its row and column offsets. */
  function BlockOffset(p: int): (o: (int, int))
    requires 0 <= p < 9
    ensures 0 <= o.0 < 3 && 0 <= o.1 < 3 && p == 3 * o.0 + o.1
  {
    if p < 3 then (0, p) else if p < 6 then (1, p - 3) else (2, p - 6)
  }

  /** In a consistent board of digits every block passes its sweep. */
  lemma ConsistentBlock(g: Grid, br: int, bc: int)
    requires AllDigits(g) && Consistent(g)
    requires IsBand(br) && IsBand(bc)
    ensures GroupOk(Block(g, br, bc))
  {
    var s := Block(g, br, bc);
    forall p | 0 <= p < 9 ensures 1 <= s[p] <= 9 {
      var (i, j) := BlockOffset(p);
      BlockAt(g, br, bc, i, j);
    }
    forall p, q | 0 <= p < q < 9 ensures s[p] != s[q] {
      var (i1, j1) := BlockOffset(p);
      var (i2, j2) := BlockOffset(q);
      BlockAt(g, br, bc, i1, j1);
      BlockAt(g, br, bc, i2, j2);
      ConsistentInBlock(g, br, bc, i1, j1, i2, j2);
    }
  }

  /** Two different cells of one block of a consistent board of digits differ. */
  lemma ConsistentInBlock(g: Grid, br: int, bc: int, i1: int, j1: int, i2: int, j2: int)
    requires AllDigits(g) && Consistent(g) && IsBand(br) && IsBand(bc)
    requires 0 <= i1 < 3 && 0 <= j1 < 3 && 0 <= i2 < 3 && 0 <= j2 < 3 && (i1 != i2 || j1 != j2)
    ensures g[br + i1][bc + j1] != g[br + i2][bc + j2]
  {
    assert SameGroup(br + i1, bc + j1, br + i2, bc + j2);
  }

  /** isSafe: the read-only check of a placement, three loops with an early
      return, as isSafe has. */
  method IsSafe(board: array2<int>, row: int, col: int, num: int) returns (safe: bool)
    requires board.Length0 == 9 && board.Length1 == 9
    requires 0 <= row < 9 && 0 <= col < 9
    ensures safe == Safe(Snapshot(board), row, col, num)
  {
    for k := 0 to 9
      invariant forall j :: 0 <= j < k ==> board[row, j] != num && board[j, col] != num
    {
      if board[row, k] == num || board[k, col] == num {
        return false;
      }
    }
    var br := row - row % 3;
    var bc := col - col % 3;
    for r := 0 to 3
      invariant forall i, j :: br <= i < br + r && bc <= j < bc + 3 ==> board[i, j] != num
    {
      for c := 0 to 3
        invariant forall i, j ::
          br <= i <= br + r && bc <= j < bc + 3 && (i < br + r || j < bc + c) ==> board[i, j] != num
      {
        if board[br + r, bc + c] == num {
          return false;
        }
      }
    }
    return true;
  }

  /** isCorrectSolution: three sweeps (rows, then columns, then blocks),
      each stopping at the first group that fails. */
  method IsCorrectSolution(board: array2<int>) returns (correct: bool)
    requires board.Length0 == 9 && board.Length1 == 9
    ensures correct == ValidSolution(Snapshot(board))
  {
    correct := CheckRows(board);
    if !correct {
      return false;
    }
    correct := CheckColumns(board);
    if !correct {
      return false;
    }
    correct := CheckBlocks(board);
  }

  /** The row sweep of isCorrectSolution: a fresh `seen` array per row;
      a value outside 1..9 or one already seen in that row fails. */
  method CheckRows(board: array2<int>) returns (ok: bool)
    requires board.Length0 == 9 && board.Length1 == 9
    ensures ok == forall r :: 0 <= r < 9 ==> GroupOk(Row(Snapshot(board), r))
  {
    ghost var g := Snapshot(board);
    for r := 0 to 9
      invariant forall i :: 0 <= i < r ==> GroupOk(Row(g, i))
    {
      ghost var s := Row(g, r);
      var seen := new bool[10](_ => false);
      for c := 0 to 9
        invariant forall v :: 0 <= v < 10 ==> (seen[v] <==> v in s[..c])
        invariant GroupOk(s[..c])
      {
        var v := board[r, c];
        assert v == s[c];
        if v < 1 || v > 9 || seen[v] {
          GroupFails(s, c);
          assert !GroupOk(Row(Snapshot(board), r));
          return false;
        }
        seen[v] := true;
        GroupGrows(s, c);
      }
      assert s[..9] == s;
    }
    return true;
  }

  /** The column sweep of isCorrectSolution. */
  method CheckColumns(board: array2<int>) returns (ok: bool)
    requires board.Length0 == 9 && board.Length1 == 9
    ensures ok == forall c :: 0 <= c < 9 ==> GroupOk(Column(Snapshot(board), c))
  {
    ghost var g := Snapshot(board);
    for c := 0 to 9
      invariant forall j :: 0 <= j < c ==> GroupOk(Column(g, j))
    {
      ghost var s := Column(g, c);
      var seen := new bool[10](_ => false);
      for r := 0 to 9
        invariant forall v :: 0 <= v < 10 ==> (seen[v] <==> v in s[..r])
        invariant GroupOk(s[..r])
      {
        var v := board[r, c];
        assert v == s[r];
        if v < 1 || v > 9 || seen[v] {
          GroupFails(s, r);
          assert !GroupOk(Column(Snapshot(board), c));
          return false;
        }
        seen[v] := true;
        GroupGrows(s, r);
      }
      assert s[..9] == s;
    }
    return true;
  }

  /** The block sweep of isCorrectSolution: block origins (br, bc) step by 3. */
  method CheckBlocks(board: array2<int>) returns (ok: bool)
    requires board.Length0 == 9 && board.Length1 == 9
    ensures ok == forall br, bc :: 0 <= br < 9 && 0 <= bc < 9 && IsBand(br) && IsBand(bc) ==>
      GroupOk(Block(Snapshot(board), br, bc))
  {
    var br := 0;
    while br < 9
      invariant IsBand(br) || br == 9
      invariant forall i, j :: IsBand(i) && i < br && IsBand(j) ==> GroupOk(Block(Snapshot(board), i, j))
    {
      var bc := 0;
      while bc < 9
        invariant IsBand(bc) || bc == 9
        invariant forall i, j :: IsBand(i) && i < br && IsBand(j) ==> GroupOk(Block(Snapshot(board), i, j))
        invariant forall j :: IsBand(j) && j < bc ==> GroupOk(Block(Snapshot(board), br, j))
      {
        ok := CheckBlock(board, br, bc);
        if !ok {
          return false;
        }
        bc := bc + 3;
      }
      br := br + 3;
    }
    return true;
  }

  /** One block of the block sweep, with its own fresh `seen` array, read
      row by row. */
  method CheckBlock(board: array2<int>, br: int, bc: int) returns (ok: bool)
    requires board.Length0 == 9 && board.Length1 == 9 && IsBand(br) && IsBand(bc)
    ensures ok == GroupOk(Block(Snapshot(board), br, bc))
  {
    ghost var g := Snapshot(board);
    ghost var s := Block(g, br, bc);
    var seen := new bool[10](_ => false);
    for r := 0 to 3
      invariant forall v :: 0 <= v < 10 ==> (seen[v] <==> v in s[..3 * r])
      invariant GroupOk(s[..3 * r])
    {
      for c := 0 to 3
        invariant forall v :: 0 <= v < 10 ==> (seen[v] <==> v in s[..3 * r + c])
        invariant GroupOk(s[..3 * r + c])
      {
        var v := board[br + r, bc + c];
        ghost var k := 3 * r + c;
        BlockAt(g, br, bc, r, c);
        assert v == s[k];
        if v < 1 || v > 9 || seen[v] {
          GroupFails(s, k);
          return false;
        }
        seen[v] := true;
        GroupGrows(s, k);
      }
    }
    assert s[..9] == s;
    return true;
  }

  /** A group's checked prefix grows by a fresh digit. */
  lemma GroupGrows(s: seq<int>, k: int)
    requires 0 <= k < |s| && GroupOk(s[..k]) && 1 <= s[k] <= 9 && s[k] !in s[..k]
    ensures s[..k + 1] == s[..k] + [s[k]] && GroupOk(s[..k + 1])
  {
    assert s[..k + 1] == s[..k] + [s[k]];
  }

  /** A group fails its sweep once the value at position k is out of range
      or repeats an earlier one. */
  lemma GroupFails(s: seq<int>, k: int)
    requires 0 <= k < |s|
    requires !(1 <= s[k] <= 9) || s[k] in s[..k]
    ensures !GroupOk(s)
  {
    if s[k] in s[..k] {
      var i :| 0 <= i < k && s[..k][i] == s[k];
      assert s[i] == s[k];
    }
  }

  /** Every cell holds a value 0..9, the values a board may store. */
  predicate InRange(g: Grid) {
    forall i, j :: 0 <= i < 9 && 0 <= j < 9 ==> 0 <= g[i][j] <= 9
  }

  /** s keeps every non-empty cell of g. */
  predicate Extends(s: Grid, g: Grid) {
    forall i, j :: 0 <= i < 9 && 0 <= j < 9 && g[i][j] != 0 ==> s[i][j] == g[i][j]
  }
}
