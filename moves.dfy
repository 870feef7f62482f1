/** The undo history: the Move record and the stack of moves. */
module Moves {

  /** A cell and the text it showed before the change. */
  datatype Move = Move(row: int, col: int, prevValue: string)

  /** java.util.Stack<Move>, bottom first: the last element is the top. */
  class MoveStack {
    var moves: seq<Move>

    constructor()
      ensures moves == []
    {
      moves := [];
    }

    predicate IsEmpty()
      reads this
    {
      moves == []
    }

    method Push(m: Move)
      modifies this
      ensures moves == old(moves) + [m]
    {
      moves := moves + [m];
    }

    /** Stack.pop throws on an empty stack; callers test IsEmpty first. */
    method Pop() returns (top: Move)
      requires moves != []
      modifies this
      ensures old(moves) == moves + [top]
    {
      top := moves[|moves| - 1];
      moves := moves[..|moves| - 1];
    }

    method Clear()
      modifies this
      ensures moves == []
    {
      moves := [];
    }
  }
}
