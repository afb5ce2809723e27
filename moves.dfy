/** One-step move scoring and the final move extraction of the search. */
module Moves {
  import opened Board
  import opened Ranking

  /** The desirability of `move` for `player`: 2 when it completes a line for `player`,
      otherwise 1 when it is the cell that would complete a line for the opponent,
      otherwise 0. */
  function MoveScore(move: Cell, b: Board, player: int): (score: int)
    ensures 0 <= score <= 2
  {
    if CheckWinner(b[move := player], player) then 2
    else if CheckWinner(b[move := -player], -player) then 1
    else 0
  }

  /** The score in terms of the winning combinations: 2 exactly when `move` completes a line
      for `player`, 1 exactly when it does not but completes one for the opponent. */
  lemma MoveScoreByLines(move: Cell, b: Board, player: int)
    ensures MoveScore(move, b, player) == 2 <==> CompletesSomeLine(b, move, player)
    ensures MoveScore(move, b, player) == 1
            <==> !CompletesSomeLine(b, move, player) && CompletesSomeLine(b, move, -player)
  {
    PlacingCompletesLine(b, move, player);
    PlacingCompletesLine(b, move, -player);
  }

  /** evaluate_move: writes `player`, then `-player`, into `move` of a fresh copy of the board
      and tests for a win after each write. */
  method EvaluateMove(move: Cell, board: Board, player: int) returns (score: int)
    ensures score == 2 <==> CheckWinner(board[move := player], player)
    ensures score == 1 <==> !CheckWinner(board[move := player], player) && CheckWinner(board[move := -player], -player)
    ensures score == 0 <==> !CheckWinner(board[move := player], player) && !CheckWinner(board[move := -player], -player)
    ensures score == MoveScore(move, board, player)
  {
    var tempBoard := new int[9](i requires 0 <= i < 9 => board[i]);
    tempBoard[move] := player;
    assert tempBoard[..] == board[move := player];
    if CheckWinner(tempBoard[..], player) {
      return 2;
    }
    tempBoard[move] := -player;
    assert tempBoard[..] == board[move := -player];
    if CheckWinner(tempBoard[..], -player) {
      return 1;
    }
    return 0;
  }

  /** The scores of the listed moves for `player`, in list order. */
  function ScoresOf(moves: seq<Cell>, b: Board, player: int): (scores: seq<int>)
    ensures |scores| == |moves|
  {
    if moves == [] then []
    else ScoresOf(moves[..|moves| - 1], b, player) + [MoveScore(moves[|moves| - 1], b, player)]
  }

  lemma {:induction false} ScoreAt(moves: seq<Cell>, b: Board, player: int, k: nat)
    requires k < |moves|
    ensures ScoresOf(moves, b, player)[k] == MoveScore(moves[k], b, player)
    decreases |moves|
  {
    var init := moves[..|moves| - 1];
    if k < |init| {
      ScoreAt(init, b, player, k);
    }
  }

  /** The move the search returns: among the empty cells, listed lowest first, the first one
      whose score for player -1 is maximal. */
  function BestMove(b: Board): (move: Cell)
    requires HasEmptyCell(b)
    ensures b[move] == 0
  {
    var neutralMoves := EmptyCells(b);
    var c: Cell :| b[c] == 0;
    assert c in neutralMoves;
    neutralMoves[FirstMaxIndex(ScoresOf(neutralMoves, b, -1))]
  }

  /** The extracted move is an empty cell, no empty cell scores higher, and every empty cell
      below it scores strictly lower: it is the lowest-indexed best-scoring empty cell. */
  lemma BestMoveIsFirstMaximum(b: Board)
    requires HasEmptyCell(b)
    ensures b[BestMove(b)] == 0
    ensures forall c: Cell :: b[c] == 0 ==> MoveScore(c, b, -1) <= MoveScore(BestMove(b), b, -1)
    ensures forall c: Cell :: c < BestMove(b) && b[c] == 0 ==> MoveScore(c, b, -1) < MoveScore(BestMove(b), b, -1)
  {
    var neutralMoves := EmptyCells(b);
    var scores := ScoresOf(neutralMoves, b, -1);
    var c0: Cell :| b[c0] == 0;
    assert c0 in neutralMoves;
    var best := FirstMaxIndex(scores);
    var m := neutralMoves[best];
    assert BestMove(b) == m;
    forall c: Cell | b[c] == 0
      ensures MoveScore(c, b, -1) <= MoveScore(m, b, -1)
      ensures c < m ==> MoveScore(c, b, -1) < MoveScore(m, b, -1)
    {
      assert c in neutralMoves;
      var k :| 0 <= k < |neutralMoves| && neutralMoves[k] == c;
      FirstMaxOverAscending(neutralMoves, scores, k);
      ScoreAt(neutralMoves, b, -1, k);
      ScoreAt(neutralMoves, b, -1, best);
    }
  }

  /** In an ascending list of cells, the first maximum of their scores sits at the
      lowest cell among the maximal ones. */
  lemma FirstMaxOverAscending(cells: seq<Cell>, scores: seq<int>, k: nat)
    requires |scores| == |cells| && k < |cells|
    requires forall i, j :: 0 <= i < j < |cells| ==> cells[i] < cells[j]
    ensures scores[k] <= scores[FirstMaxIndex(scores)]
    ensures cells[k] < cells[FirstMaxIndex(scores)] ==> scores[k] < scores[FirstMaxIndex(scores)]
  {
    var best := FirstMaxIndex(scores);
    if cells[k] < cells[best] {
      assert k < best;
    }
  }

  /** A cell that wins outright outranks every blocking or neutral cell: when some empty cell
      completes a line for -1, the extracted move completes one too. */
  lemma WinningMoveIsPreferred(b: Board, c: Cell)
    requires b[c] == 0 && CompletesSomeLine(b, c, -1)
    ensures CompletesSomeLine(b, BestMove(b), -1)
  {
    BestMoveIsFirstMaximum(b);
    MoveScoreByLines(c, b, -1);
    MoveScoreByLines(BestMove(b), b, -1);
  }

  /** With a single empty cell, that cell is the move. */
  lemma SingleEmptyCellIsChosen(b: Board, c: Cell)
    requires b[c] == 0
    requires forall d: Cell :: d != c ==> b[d] != 0
    ensures BestMove(b) == c
  {
    BestMoveIsFirstMaximum(b);
  }

  /** The first empty cell that wins outright is the move. */
  lemma FirstWinningCellIsChosen(b: Board, c: Cell)
    requires b[c] == 0 && MoveScore(c, b, -1) == 2
    requires forall d: Cell :: d < c && b[d] == 0 ==> MoveScore(d, b, -1) < 2
    ensures BestMove(b) == c
  {
    BestMoveIsFirstMaximum(b);
  }

  /** Player -1 to move on X X . / O O . / . . . takes the winning cell 5 rather than
      blocking at cell 2. */
  lemma WinInsteadOfBlock(b: Board)
    requires b[0] == 1 && b[1] == 1 && b[2] == 0
    requires b[3] == -1 && b[4] == -1 && b[5] == 0
    requires b[6] == 0 && b[7] == 0 && b[8] == 0
    ensures HasEmptyCell(b) && BestMove(b) == 5
  {
    assert b[2] == 0;
    CellFiveWins(b);
    CellTwoOnlyBlocks(b);
    forall d: Cell | d < 5 && b[d] == 0 ensures MoveScore(d, b, -1) < 2 {
      assert d == 2;
    }
    FirstWinningCellIsChosen(b, 5);
  }

  lemma CellFiveWins(b: Board)
    requires b[3] == -1 && b[4] == -1
    ensures MoveScore(5, b, -1) == 2
  {
    var next: Board := b[5 := -1];
    assert RowHeld(next, -1, 1);
  }

  lemma CellTwoOnlyBlocks(b: Board)
    requires b[0] == 1 && b[1] == 1 && b[3] == -1 && b[4] == -1
    requires b[5] == 0 && b[6] == 0 && b[8] == 0
    ensures MoveScore(2, b, -1) == 1
  {
    MoveScoreByLines(2, b, -1);
    var L := WinningCombinations;
    forall k | 0 <= k < |L| ensures !CompletedBy(b, 2, -1, L[k]) {
      assert k == 0 || k == 1 || k == 2 || k == 3 || k == 4 || k == 5 || k == 6 || k == 7;
    }
    assert CompletedBy(b, 2, 1, L[0]);
  }
}
