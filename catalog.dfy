/** The three preset puzzles of the level selector, and for each a
    solution that keeps its givens: the witness that the preset can be
    solved, so that the solver fills it with a correct solution. */
module Catalog {
  import opened Boards
  import opened Constraints

  /** The entries of the difficulty selector. */
  datatype Level = Easy | Medium | Hard

  const EasyPuzzle: Grid := [
      [5, 3, 0, 0, 7, 0, 0, 0, 0],
      [6, 0, 0, 1, 9, 5, 0, 0, 0],
      [0, 9, 8, 0, 0, 0, 0, 6, 0],
      [8, 0, 0, 0, 6, 0, 0, 0, 3],
      [4, 0, 0, 8, 0, 3, 0, 0, 1],
      [7, 0, 0, 0, 2, 0, 0, 0, 6],
      [0, 6, 0, 0, 0, 0, 2, 8, 0],
      [0, 0, 0, 4, 1, 9, 0, 0, 5],
      [0, 0, 0, 0, 8, 0, 0, 7, 9]
    ]

  const MediumPuzzle: Grid := [
      [0, 2, 0, 6, 0, 8, 0, 0, 0],
      [5, 8, 0, 0, 0, 9, 7, 0, 0],
      [0, 0, 0, 0, 4, 0, 0, 0, 0],
      [3, 7, 0, 0, 0, 0, 5, 0, 0],
      [6, 0, 0, 0, 0, 0, 0, 0, 4],
      [0, 0, 8, 0, 0, 0, 0, 1, 3],
      [0, 0, 0, 0, 2, 0, 0, 0, 0],
      [0, 0, 9, 8, 0, 0, 0, 3, 6],
      [0, 0, 0, 3, 0, 6, 0, 9, 0]
    ]

  const HardPuzzle: Grid := [
      [0, 0, 0, 0, 0, 0, 0, 1, 2],
      [0, 0, 0, 0, 0, 0, 7, 0, 0],
      [0, 0, 1, 0, 0, 0, 0, 0, 0],
      [0, 0, 0, 0, 0, 5, 0, 0, 0],
      [4, 0, 0, 3, 0, 0, 0, 0, 0],
      [0, 9, 0, 0, 0, 0, 0, 0, 0],
      [0, 0, 0, 7, 0, 0, 3, 0, 0],
      [3, 0, 0, 0, 0, 0, 6, 0, 0],
      [0, 0, 0, 9, 0, 0, 0, 0, 0]
    ]

  /** The board a level starts from. */
  function Template(l: Level): Grid {
    match l
    case Easy => EasyPuzzle
    case Medium => MediumPuzzle
    case Hard => HardPuzzle
  }

  const EasySolution: Grid := [
      [5, 3, 4, 6, 7, 8, 9, 1, 2],
      [6, 7, 2, 1, 9, 5, 3, 4, 8],
      [1, 9, 8, 3, 4, 2, 5, 6, 7],
      [8, 5, 9, 7, 6, 1, 4, 2, 3],
      [4, 2, 6, 8, 5, 3, 7, 9, 1],
      [7, 1, 3, 9, 2, 4, 8, 5, 6],
      [9, 6, 1, 5, 3, 7, 2, 8, 4],
      [2, 8, 7, 4, 1, 9, 6, 3, 5],
      [3, 4, 5, 2, 8, 6, 1, 7, 9]
    ]

  const MediumSolution: Grid := [
      [1, 2, 3, 6, 7, 8, 9, 4, 5],
      [5, 8, 4, 2, 3, 9, 7, 6, 1],
      [9, 6, 7, 1, 4, 5, 3, 2, 8],
      [3, 7, 2, 4, 6, 1, 5, 8, 9],
      [6, 9, 1, 5, 8, 3, 2, 7, 4],
      [4, 5, 8, 7, 9, 2, 6, 1, 3],
      [8, 3, 6, 9, 2, 4, 1, 5, 7],
      [2, 1, 9, 8, 5, 7, 4, 3, 6],
      [7, 4, 5, 3, 1, 6, 8, 9, 2]
    ]

  const HardSolution: Grid := [
      [5, 3, 4, 6, 7, 8, 9, 1, 2],
      [2, 6, 8, 1, 3, 9, 7, 4, 5],
      [9, 7, 1, 2, 5, 4, 8, 3, 6],
      [1, 2, 3, 8, 6, 5, 4, 7, 9],
      [4, 8, 5, 3, 9, 7, 2, 6, 1],
      [6, 9, 7, 4, 1, 2, 5, 8, 3],
      [8, 1, 9, 7, 2, 6, 3, 5, 4],
      [3, 4, 2, 5, 8, 1, 6, 9, 7],
      [7, 5, 6, 9, 4, 3, 1, 2, 8]
    ]

  function Witness(l: Level): Grid {
    match l
    case Easy => EasySolution
    case Medium => MediumSolution
    case Hard => HardSolution
  }

  /** Nine digits 1..9, no two alike, stated position by position so that
      a fixed sequence is checked without case analysis. */
  predicate Spread(s: seq<int>)
    requires |s| == 9
  {
    1 <= s[0] <= 9 && 1 <= s[1] <= 9 && 1 <= s[2] <= 9 &&
    1 <= s[3] <= 9 && 1 <= s[4] <= 9 && 1 <= s[5] <= 9 &&
    1 <= s[6] <= 9 && 1 <= s[7] <= 9 && 1 <= s[8] <= 9 &&
    s[0] != s[1] && s[0] != s[2] && s[0] != s[3] && s[0] != s[4] && s[0] != s[5] && s[0] != s[6] && s[0] != s[7] && s[0] != s[8] &&
    s[1] != s[2] && s[1] != s[3] && s[1] != s[4] && s[1] != s[5] && s[1] != s[6] && s[1] != s[7] && s[1] != s[8] &&
    s[2] != s[3] && s[2] != s[4] && s[2] != s[5] && s[2] != s[6] && s[2] != s[7] && s[2] != s[8] &&
    s[3] != s[4] && s[3] != s[5] && s[3] != s[6] && s[3] != s[7] && s[3] != s[8] &&
    s[4] != s[5] && s[4] != s[6] && s[4] != s[7] && s[4] != s[8] &&
    s[5] != s[6] && s[5] != s[7] && s[5] != s[8] &&
    s[6] != s[7] && s[6] != s[8] &&
    s[7] != s[8]
  }

  lemma Index9(i: int)
    requires 0 <= i < 9
    ensures i == 0 || i == 1 || i == 2 || i == 3 || i == 4 || i == 5 || i == 6 || i == 7 || i == 8
  {
  }

  lemma SpreadIsGroupOk(s: seq<int>)
    requires |s| == 9 && Spread(s)
    ensures GroupOk(s)
  {
    forall i | 0 <= i < 9 ensures 1 <= s[i] <= 9 {
      Index9(i);
    }
    forall i, j | 0 <= i < j < 9 ensures s[i] != s[j] {
      Index9(i);
      Index9(j);
    }
  }

  lemma EasyRows()
    ensures forall r :: 0 <= r < 9 ==> GroupOk(Row(EasySolution, r))
  {
    forall r | 0 <= r < 9 ensures GroupOk(Row(EasySolution, r)) {
      Index9(r);
      assert Spread(Row(EasySolution, r));
      SpreadIsGroupOk(Row(EasySolution, r));
    }
  }

  lemma EasyColumns()
    ensures forall c :: 0 <= c < 9 ==> GroupOk(Column(EasySolution, c))
  {
    forall c | 0 <= c < 9 ensures GroupOk(Column(EasySolution, c)) {
      Index9(c);
      SpreadIsGroupOk(Column(EasySolution, c));
    }
  }

  lemma EasyBand0()
    ensures GroupOk(Block(EasySolution, 0, 0)) && GroupOk(Block(EasySolution, 0, 3)) && GroupOk(Block(EasySolution, 0, 6))
  {
    SpreadIsGroupOk(Block(EasySolution, 0, 0));
    SpreadIsGroupOk(Block(EasySolution, 0, 3));
    SpreadIsGroupOk(Block(EasySolution, 0, 6));
  }

  lemma EasyBand3()
    ensures GroupOk(Block(EasySolution, 3, 0)) && GroupOk(Block(EasySolution, 3, 3)) && GroupOk(Block(EasySolution, 3, 6))
  {
    SpreadIsGroupOk(Block(EasySolution, 3, 0));
    SpreadIsGroupOk(Block(EasySolution, 3, 3));
    SpreadIsGroupOk(Block(EasySolution, 3, 6));
  }

  lemma EasyBand6()
    ensures GroupOk(Block(EasySolution, 6, 0)) && GroupOk(Block(EasySolution, 6, 3)) && GroupOk(Block(EasySolution, 6, 6))
  {
    SpreadIsGroupOk(Block(EasySolution, 6, 0));
    SpreadIsGroupOk(Block(EasySolution, 6, 3));
    SpreadIsGroupOk(Block(EasySolution, 6, 6));
  }

  lemma EasyBlocks()
    ensures forall br, bc :: 0 <= br < 9 && 0 <= bc < 9 && IsBand(br) && IsBand(bc) ==>
      GroupOk(Block(EasySolution, br, bc))
  {
    EasyBand0();
    EasyBand3();
    EasyBand6();
  }

  lemma MediumRows()
    ensures forall r :: 0 <= r < 9 ==> GroupOk(Row(MediumSolution, r))
  {
    forall r | 0 <= r < 9 ensures GroupOk(Row(MediumSolution, r)) {
      Index9(r);
      assert Spread(Row(MediumSolution, r));
      SpreadIsGroupOk(Row(MediumSolution, r));
    }
  }

  lemma MediumColumns()
    ensures forall c :: 0 <= c < 9 ==> GroupOk(Column(MediumSolution, c))
  {
    forall c | 0 <= c < 9 ensures GroupOk(Column(MediumSolution, c)) {
      Index9(c);
      SpreadIsGroupOk(Column(MediumSolution, c));
    }
  }

  lemma MediumBand0()
    ensures GroupOk(Block(MediumSolution, 0, 0)) && GroupOk(Block(MediumSolution, 0, 3)) && GroupOk(Block(MediumSolution, 0, 6))
  {
    SpreadIsGroupOk(Block(MediumSolution, 0, 0));
    SpreadIsGroupOk(Block(MediumSolution, 0, 3));
    SpreadIsGroupOk(Block(MediumSolution, 0, 6));
  }

  lemma MediumBand3()
    ensures GroupOk(Block(MediumSolution, 3, 0)) && GroupOk(Block(MediumSolution, 3, 3)) && GroupOk(Block(MediumSolution, 3, 6))
  {
    SpreadIsGroupOk(Block(MediumSolution, 3, 0));
    SpreadIsGroupOk(Block(MediumSolution, 3, 3));
    SpreadIsGroupOk(Block(MediumSolution, 3, 6));
  }

  lemma MediumBand6()
    ensures GroupOk(Block(MediumSolution, 6, 0)) && GroupOk(Block(MediumSolution, 6, 3)) && GroupOk(Block(MediumSolution, 6, 6))
  {
    SpreadIsGroupOk(Block(MediumSolution, 6, 0));
    SpreadIsGroupOk(Block(MediumSolution, 6, 3));
    SpreadIsGroupOk(Block(MediumSolution, 6, 6));
  }

  lemma MediumBlocks()
    ensures forall br, bc :: 0 <= br < 9 && 0 <= bc < 9 && IsBand(br) && IsBand(bc) ==>
      GroupOk(Block(MediumSolution, br, bc))
  {
    MediumBand0();
    MediumBand3();
    MediumBand6();
  }

  lemma HardRows()
    ensures forall r :: 0 <= r < 9 ==> GroupOk(Row(HardSolution, r))
  {
    forall r | 0 <= r < 9 ensures GroupOk(Row(HardSolution, r)) {
      Index9(r);
      assert Spread(Row(HardSolution, r));
      SpreadIsGroupOk(Row(HardSolution, r));
    }
  }

  lemma HardColumns()
    ensures forall c :: 0 <= c < 9 ==> GroupOk(Column(HardSolution, c))
  {
    forall c | 0 <= c < 9 ensures GroupOk(Column(HardSolution, c)) {
      Index9(c);
      SpreadIsGroupOk(Column(HardSolution, c));
    }
  }

  lemma HardBand0()
    ensures GroupOk(Block(HardSolution, 0, 0)) && GroupOk(Block(HardSolution, 0, 3)) && GroupOk(Block(HardSolution, 0, 6))
  {
    SpreadIsGroupOk(Block(HardSolution, 0, 0));
    SpreadIsGroupOk(Block(HardSolution, 0, 3));
    SpreadIsGroupOk(Block(HardSolution, 0, 6));
  }

  lemma HardBand3()
    ensures GroupOk(Block(HardSolution, 3, 0)) && GroupOk(Block(HardSolution, 3, 3)) && GroupOk(Block(HardSolution, 3, 6))
  {
    SpreadIsGroupOk(Block(HardSolution, 3, 0));
    SpreadIsGroupOk(Block(HardSolution, 3, 3));
    SpreadIsGroupOk(Block(HardSolution, 3, 6));
  }

  lemma HardBand6()
    ensures GroupOk(Block(HardSolution, 6, 0)) && GroupOk(Block(HardSolution, 6, 3)) && GroupOk(Block(HardSolution, 6, 6))
  {
    SpreadIsGroupOk(Block(HardSolution, 6, 0));
    SpreadIsGroupOk(Block(HardSolution, 6, 3));
    SpreadIsGroupOk(Block(HardSolution, 6, 6));
  }

  lemma HardBlocks()
    ensures forall br, bc :: 0 <= br < 9 && 0 <= bc < 9 && IsBand(br) && IsBand(bc) ==>
      GroupOk(Block(HardSolution, br, bc))
  {
    HardBand0();
    HardBand3();
    HardBand6();
  }

  /** Each level's witness is a correct solution. */
  lemma WitnessIsValid(l: Level)
    ensures ValidSolution(Witness(l))
  {
    match l
    case Easy => EasyRows(); EasyColumns(); EasyBlocks();
    case Medium => MediumRows(); MediumColumns(); MediumBlocks();
    case Hard => HardRows(); HardColumns(); HardBlocks();
  }

  lemma WitnessKeepsGivens(l: Level)
    ensures Extends(Witness(l), Template(l))
  {
    forall i, j | 0 <= i < 9 && 0 <= j < 9 && Template(l)[i][j] != 0
      ensures Witness(l)[i][j] == Template(l)[i][j]
    {
      Index9(i);
      Index9(j);
    }
  }
}
