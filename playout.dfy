/** Simulated playouts: replaying a chromosome of intended moves on a private copy of the
    board, and the fitness that sums ten of them. */
module Playout {
  import opened Board

  /** The simulation between genes: still playing on `board` with `mover` to move, or
      stopped because `winner` completed a line. */
  datatype State = Playing(board: Board, mover: int) | Over(winner: int)

  /** A playout starts from the given board with player +1 to move. */
  function Start(b: Board): State
  {
    Playing(b, 1)
  }

  /** Consumes one gene: an occupied cell is skipped and the mover keeps the turn;
      otherwise the mover's mark goes there and either the mover has won or the turn passes. */
  function Step(s: State, gene: Cell): State
  {
    match s
    case Over(_) => s
    case Playing(bd, mover) =>
      if bd[gene] != 0 then s
      else
        var next := bd[gene := mover];
        if CheckWinner(next, mover) then Over(mover) else Playing(next, -mover)
  }

  /** The state after consuming `genes` in order, starting from `s`. */
  function Run(s: State, genes: seq<Cell>): State
  {
    if genes == [] then s else Step(Run(s, genes[..|genes| - 1]), genes[|genes| - 1])
  }

  /** The result of a playout for `player`: 1 when `player` is the one who completed a line,
      0 when the other player did or the chromosome ran out first. */
  function PlayoutResult(chromosome: seq<Cell>, b: Board, player: int): (r: int)
    ensures r == 0 || r == 1
    ensures r == 1 <==> Run(Start(b), chromosome) == Over(player)
  {
    match Run(Start(b), chromosome)
    case Over(winner) => if winner == player then 1 else 0
    case Playing(_, _) => 0
  }

  /** play_game: copies the board into a fresh array and replays the chromosome on it. */
  method PlayGame(chromosome: seq<Cell>, currentBoard: Board, player: int) returns (r: int)
    ensures r == PlayoutResult(chromosome, currentBoard, player)
  {
    var board := new int[9](i requires 0 <= i < 9 => currentBoard[i]);
    var currentPlayer := 1;
    for i := 0 to |chromosome|
      invariant Run(Start(currentBoard), chromosome[..i]) == Playing(board[..], currentPlayer)
    {
      var move := chromosome[i];
      assert chromosome[..i + 1][..i] == chromosome[..i];
      if board[move] == 0 {
        ghost var before := board[..];
        board[move] := currentPlayer;
        assert board[..] == before[move := currentPlayer];
        if CheckWinner(board[..], currentPlayer) {
          PrefixOver(currentBoard, chromosome, i + 1, currentPlayer);
          r := if currentPlayer == player then 1 else 0;
          return;
        }
        currentPlayer := -currentPlayer;
      }
    }
    assert chromosome[..|chromosome|] == chromosome;
    r := 0;
  }

  /** A playout whose prefix has already ended keeps that ending. */
  lemma PrefixOver(b: Board, chromosome: seq<Cell>, k: nat, winner: int)
    requires k <= |chromosome|
    requires Run(Start(b), chromosome[..k]) == Over(winner)
    ensures Run(Start(b), chromosome) == Over(winner)
  {
    assert chromosome == chromosome[..k] + chromosome[k..];
    RunAppend(Start(b), chromosome[..k], chromosome[k..]);
    OverIsFinal(winner, chromosome[k..]);
  }

  /** Consuming two chromosomes one after the other is consuming their concatenation. */
  lemma {:induction false} RunAppend(s: State, first: seq<Cell>, second: seq<Cell>)
    ensures Run(s, first + second) == Run(Run(s, first), second)
    decreases |second|
  {
    if second == [] {
      assert first + second == first;
    } else {
      var both := first + second;
      var init := second[..|second| - 1];
      assert both[..|both| - 1] == first + init;
      assert both[|both| - 1] == second[|second| - 1];
      RunAppend(s, first, init);
    }
  }

  /** Once a line is completed the simulation has stopped: further genes change nothing. */
  lemma {:induction false} OverIsFinal(winner: int, genes: seq<Cell>)
    ensures Run(Over(winner), genes) == Over(winner)
    decreases |genes|
  {
    if genes != [] {
      OverIsFinal(winner, genes[..|genes| - 1]);
    }
  }

  /** The occupied cells of a board. */
  function Marks(b: Board): set<int>
  {
    set c | 0 <= c < 9 && b[c] != 0
  }

  lemma MarkOneMore(b: Board, c: Cell, mark: int)
    requires b[c] == 0 && mark != 0
    ensures Marks(b[c := mark]) == Marks(b) + {c}
    ensures |Marks(b[c := mark])| == |Marks(b)| + 1
  {
    assert Marks(b[c := mark]) == Marks(b) + {c};
  }

  /** While a playout runs: the mover is +1 or -1, and it is +1 exactly when an even number
      of cells have been filled since the start (the players alternate, +1 first, and a skipped
      gene does not pass the turn); what was on the board is never overwritten; and every
      cell a consumed gene names is occupied. */
  lemma {:induction false} PlayingInvariant(b: Board, genes: seq<Cell>)
    ensures Run(Start(b), genes).Playing? ==>
      var s := Run(Start(b), genes);
      && (s.mover == 1 || s.mover == -1)
      && Marks(b) <= Marks(s.board)
      && (s.mover == 1 <==> (|Marks(s.board)| - |Marks(b)|) % 2 == 0)
      && (forall c: Cell :: b[c] != 0 ==> s.board[c] == b[c])
      && (forall j :: 0 <= j < |genes| ==> s.board[genes[j]] != 0)
    decreases |genes|
  {
    if genes != [] {
      var init := genes[..|genes| - 1];
      var last := genes[|genes| - 1];
      PlayingInvariant(b, init);
      var s := Run(Start(b), init);
      if s.Playing? && s.board[last] == 0 {
        MarkOneMore(s.board, last, s.mover);
      }
      forall j | 0 <= j < |init| ensures genes[j] == init[j] { }
    }
  }

  /** One gene never changes a mark already on the board: it fills an empty cell or nothing. */
  lemma StepKeepsMarks(s: State, gene: Cell)
    requires s.Playing? && Step(s, gene).Playing?
    ensures forall c: Cell :: s.board[c] != 0 ==> Step(s, gene).board[c] == s.board[c]
  {
  }

  /** No mark is ever overwritten during a playout, whether it was on the input board or
      placed by an earlier gene: every cell marked after k genes keeps that mark later on. */
  lemma {:induction false} MarksPersist(b: Board, genes: seq<Cell>, k: nat)
    requires k <= |genes|
    requires Run(Start(b), genes).Playing?
    ensures Run(Start(b), genes[..k]).Playing?
    ensures forall c: Cell :: Run(Start(b), genes[..k]).board[c] != 0 ==>
      Run(Start(b), genes).board[c] == Run(Start(b), genes[..k]).board[c]
    decreases |genes| - k
  {
    if k == |genes| {
      assert genes[..k] == genes;
    } else {
      var init := genes[..|genes| - 1];
      assert init[..k] == genes[..k];
      assert Run(Start(b), init).Playing?;
      MarksPersist(b, init, k);
      StepKeepsMarks(Run(Start(b), init), genes[|genes| - 1]);
    }
  }

  /** The gene at position i is consumed on a completed-line-free board, lands on an
      empty cell and completes a line for `player`. */
  predicate CompletesLineAt(chromosome: seq<Cell>, b: Board, i: nat, player: int)
    requires i < |chromosome|
  {
    match Run(Start(b), chromosome[..i])
    case Playing(bd, mover) =>
      mover == player && bd[chromosome[i]] == 0 && CheckWinner(bd[chromosome[i] := mover], mover)
    case Over(_) => false
  }

  /** The simulation stops at the first completed line: every later prefix ends in the same state. */
  lemma GameStopsAtFirstLine(chromosome: seq<Cell>, b: Board, i: nat, player: int, j: nat)
    requires i < j <= |chromosome|
    requires CompletesLineAt(chromosome, b, i, player)
    ensures Run(Start(b), chromosome[..j]) == Over(player)
  {
    var head := chromosome[..i + 1];
    assert head[..i] == chromosome[..i];
    assert Run(Start(b), head) == Over(player);
    assert chromosome[..j][..i + 1] == head;
    PrefixOver(b, chromosome[..j], i + 1, player);
  }

  /** A playout returns 1 exactly when some gene completes a line for `player` before any
      line has been completed, and 0 otherwise (including when the chromosome runs out). */
  lemma {:induction false} PlayoutWinsIff(chromosome: seq<Cell>, b: Board, player: int)
    ensures PlayoutResult(chromosome, b, player) == 1
            <==> exists i :: 0 <= i < |chromosome| && CompletesLineAt(chromosome, b, i, player)
    decreases |chromosome|
  {
    if exists i :: 0 <= i < |chromosome| && CompletesLineAt(chromosome, b, i, player) {
      var i :| 0 <= i < |chromosome| && CompletesLineAt(chromosome, b, i, player);
      GameStopsAtFirstLine(chromosome, b, i, player, |chromosome|);
      assert chromosome[..|chromosome|] == chromosome;
    }
    if PlayoutResult(chromosome, b, player) == 1 {
      var n := |chromosome|;
      var init := chromosome[..n - 1];
      assert chromosome != [];
      if Run(Start(b), init).Over? {
        assert PlayoutResult(init, b, player) == 1;
        PlayoutWinsIff(init, b, player);
        var i :| 0 <= i < |init| && CompletesLineAt(init, b, i, player);
        assert chromosome[..i] == init[..i];
        assert CompletesLineAt(chromosome, b, i, player);
      } else {
        assert CompletesLineAt(chromosome, b, n - 1, player);
      }
    }
  }

  /** A gene naming a cell that is occupied on the starting board, or that an earlier gene
      already named, is a no-op: deleting it changes neither the final state nor the result. */
  lemma OccupiedGeneIsSkipped(chromosome: seq<Cell>, b: Board, i: nat, player: int)
    requires i < |chromosome|
    requires b[chromosome[i]] != 0 || chromosome[i] in chromosome[..i]
    ensures Run(Start(b), chromosome[..i] + chromosome[i + 1..]) == Run(Start(b), chromosome)
    ensures PlayoutResult(chromosome[..i] + chromosome[i + 1..], b, player) == PlayoutResult(chromosome, b, player)
  {
    var head := chromosome[..i];
    var upto := chromosome[..i + 1];
    var tail := chromosome[i + 1..];
    SkippedStep(chromosome, b, i);
    assert chromosome == upto + tail;
    RunAppend(Start(b), upto, tail);
    RunAppend(Start(b), head, tail);
  }

  /** Consuming such a gene leaves the state as it was. */
  lemma SkippedStep(chromosome: seq<Cell>, b: Board, i: nat)
    requires i < |chromosome|
    requires b[chromosome[i]] != 0 || chromosome[i] in chromosome[..i]
    ensures Run(Start(b), chromosome[..i + 1]) == Run(Start(b), chromosome[..i])
  {
    var head := chromosome[..i];
    var gene := chromosome[i];
    PlayingInvariant(b, head);
    if Run(Start(b), head).Playing? && gene in head {
      var j :| 0 <= j < |head| && head[j] == gene;
    }
    assert chromosome[..i + 1][..i] == head;
  }

  function SumOfPlayouts(chromosome: seq<Cell>, b: Board, n: nat): int
  {
    if n == 0 then 0 else SumOfPlayouts(chromosome, b, n - 1) + PlayoutResult(chromosome, b, -1)
  }

  /** A playout consumes no randomness, so n of them sum to n times one. */
  lemma {:induction false} SumOfIdenticalPlayouts(chromosome: seq<Cell>, b: Board, n: nat)
    ensures SumOfPlayouts(chromosome, b, n) == n * PlayoutResult(chromosome, b, -1)
  {
    if n > 0 {
      SumOfIdenticalPlayouts(chromosome, b, n - 1);
    }
  }

  /** evaluate_fitness: the wins of player -1 over ten playouts of the chromosome; as the
      ten playouts are identical, the fitness is 10 times one playout, so 0 or 10. */
  function EvaluateFitness(chromosome: seq<Cell>, b: Board): (wins: int)
    ensures wins == 10 * PlayoutResult(chromosome, b, -1)
    ensures wins == 0 || wins == 10
  {
    SumOfIdenticalPlayouts(chromosome, b, 10);
    SumOfPlayouts(chromosome, b, 10)
  }
}
