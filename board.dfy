/** The 3x3 board, its eight winning lines and the win test. */
module Board {

  /** An index of a cell, 0..8, in row-major order. */
  type Cell = i: int | 0 <= i < 9

  /** Nine cells; 0 is empty, 1 and -1 are the two players' marks. */
  type Board = b: seq<int> | |b| == 9 witness [0, 0, 0, 0, 0, 0, 0, 0, 0]

  /** A winning combination: three cell indices. */
  type Line = (Cell, Cell, Cell)

  /** The eight winning combinations, in the order the engine lists them. */
  const WinningCombinations: seq<Line> := [
    (0, 1, 2), (3, 4, 5), (6, 7, 8),
    (0, 3, 6), (1, 4, 7), (2, 5, 8),
    (0, 4, 8), (2, 4, 6)
  ]

  /** The cell in row `row` and column `col`. */
  function Square(b: Board, row: int, col: int): int
    requires 0 <= row < 3 && 0 <= col < 3
  {
    b[3 * row + col]
  }

  /** All three cells of `line` hold `player`. */
  predicate LineHeld(b: Board, player: int, line: Line)
  {
    b[line.0] == player && b[line.1] == player && b[line.2] == player
  }

  predicate RowHeld(b: Board, player: int, row: int)
    requires 0 <= row < 3
  {
    Square(b, row, 0) == player && Square(b, row, 1) == player && Square(b, row, 2) == player
  }

  predicate ColumnHeld(b: Board, player: int, col: int)
    requires 0 <= col < 3
  {
    Square(b, 0, col) == player && Square(b, 1, col) == player && Square(b, 2, col) == player
  }

  /** Some row, some column or one of the two diagonals is uniformly `player`. */
  predicate HasThreeInARow(b: Board, player: int)
  {
    || (exists row :: 0 <= row < 3 && RowHeld(b, player, row))
    || (exists col :: 0 <= col < 3 && ColumnHeld(b, player, col))
    || (Square(b, 0, 0) == player && Square(b, 1, 1) == player && Square(b, 2, 2) == player)
    || (Square(b, 0, 2) == player && Square(b, 1, 1) == player && Square(b, 2, 0) == player)
  }

  /** `player` has won: some winning combination has all three cells equal to `player`.
      The eight combinations are exactly the three rows, three columns and two diagonals. */
  function CheckWinner(b: Board, player: int): (won: bool)
    ensures won <==> HasThreeInARow(b, player)
  {
    LinesCover(b, player);
    exists k | 0 <= k < |WinningCombinations| :: LineHeld(b, player, WinningCombinations[k])
  }

  lemma LinesCover(b: Board, player: int)
    ensures (exists k | 0 <= k < |WinningCombinations| :: LineHeld(b, player, WinningCombinations[k]))
            <==> HasThreeInARow(b, player)
  {
    var L := WinningCombinations;
    if exists k | 0 <= k < |L| :: LineHeld(b, player, L[k]) {
      var k :| 0 <= k < |L| && LineHeld(b, player, L[k]);
      if k < 3 {
        assert RowHeld(b, player, k);
      } else if k < 6 {
        assert ColumnHeld(b, player, k - 3);
      }
    }
    if HasThreeInARow(b, player) {
      if exists row :: 0 <= row < 3 && RowHeld(b, player, row) {
        var row :| 0 <= row < 3 && RowHeld(b, player, row);
        assert LineHeld(b, player, L[row]);
      } else if exists col :: 0 <= col < 3 && ColumnHeld(b, player, col) {
        var col :| 0 <= col < 3 && ColumnHeld(b, player, col);
        assert LineHeld(b, player, L[3 + col]);
      } else if Square(b, 0, 0) == player && Square(b, 1, 1) == player && Square(b, 2, 2) == player {
        assert LineHeld(b, player, L[6]);
      } else {
        assert LineHeld(b, player, L[7]);
      }
    }
  }

  /** Every cell of `line` other than `move` already holds `player`: putting `player`
      at `move` leaves the whole line held by `player`. */
  predicate CompletedBy(b: Board, move: Cell, player: int, line: Line)
  {
    && (line.0 == move || b[line.0] == player)
    && (line.1 == move || b[line.1] == player)
    && (line.2 == move || b[line.2] == player)
  }

  /** Some winning combination is completed by putting `player` at `move`. */
  predicate CompletesSomeLine(b: Board, move: Cell, player: int)
  {
    exists k | 0 <= k < |WinningCombinations| :: CompletedBy(b, move, player, WinningCombinations[k])
  }

  /** Putting `player` at `move` wins for `player` exactly when some winning combination
      is completed by that move (or was already held by `player` and does not pass through it). */
  lemma {:induction false} PlacingCompletesLine(b: Board, move: Cell, player: int)
    ensures CheckWinner(b[move := player], player) <==> CompletesSomeLine(b, move, player)
  {
    var nb: Board := b[move := player];
    var L := WinningCombinations;
    forall k | 0 <= k < |L|
      ensures LineHeld(nb, player, L[k]) <==> CompletedBy(b, move, player, L[k])
    {
    }
    LinesCover(nb, player);
  }

  /** The cells `from`..8 that are empty, in increasing order (the comprehension over range(9)). */
  function EmptyCellsFrom(b: Board, from: nat): (cells: seq<Cell>)
    requires from <= 9
    ensures forall i :: 0 <= i < |cells| ==> from <= cells[i]
    ensures forall i, j :: 0 <= i < j < |cells| ==> cells[i] < cells[j]
    ensures forall c: Cell :: c in cells <==> from <= c && b[c] == 0
    decreases 9 - from
  {
    if from == 9 then []
    else if b[from] == 0 then [from as Cell] + EmptyCellsFrom(b, from + 1)
    else EmptyCellsFrom(b, from + 1)
  }

  /** The empty cells of the board, lowest index first. */
  function EmptyCells(b: Board): (cells: seq<Cell>)
    ensures forall i, j :: 0 <= i < j < |cells| ==> cells[i] < cells[j]
    ensures forall c: Cell :: c in cells <==> b[c] == 0
  {
    EmptyCellsFrom(b, 0)
  }

  predicate HasEmptyCell(b: Board)
  {
    exists c: Cell :: b[c] == 0
  }
}
