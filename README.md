# Tic-tac-toe genetic move search, in Dafny

This project models the move-search engine of a 3x3 tic-tac-toe game (the
`GeneticAlgorithm` class of `tictoctoe/genetic.py`) and proves properties of that
model. The engine has five parts:

- a win test against the eight winning combinations;
- simulated playouts that replay a chromosome of nine intended moves on a private copy
  of the board;
- a fitness that sums ten playouts;
- a one-step score for each candidate move;
- the driver. It evolves a random population with elitism, single-point crossover and
  mutation, then returns the lowest empty cell whose score for player -1 is highest.

Modules follow those parts:

- `Board` (board.dfy): cells, the winning combinations, `check_winner`, the empty-cell
  comprehension.
- `Ranking` (ranking.dfy): `max`, `list.index` and their combination
  `xs.index(max(xs))`, the tie-break used for both the elite and the move.
- `Playout` (playout.dfy): `play_game` and `evaluate_fitness`.
- `Moves` (moves.dfy): `evaluate_move` and the move extraction.
- `Search` (search.dfy): the configuration, `initialize_population`, crossover and
  mutation, one generation, and `genetic_algorithm`.

How the source is represented:

- The caller's board is a Dafny sequence, a value. No operation can change it.
  `play_game` and `evaluate_move` copy it into a fresh `array` and write into that copy,
  as the source writes into `current_board.copy()`.
- A playout is specified by `Run`, a left-to-right fold of `Step` over the genes.
  `PlayGame`, the loop of the source, is proved equal to it.
- The random draws are inputs. The initial genes are a flat sequence of `9 * population`
  cells. Each generation brings one `Breeding` record per child: the two parent
  positions, the crossover point, the mutation coin, the gene to overwrite and a
  position in the list of empty cells.
- Both uses of `list.index(max(...))` are modelled as the lowest index among the maxima
  (`Ranking.FirstMaxIndex`).

## Model

| member | source | states |
|---|---|---|
| `Board.CheckWinner` | tictoctoe/genetic.py:110-113 | the player has won exactly when some row, some column or one of the two diagonals is uniformly that player |
| `Board.LinesCover` | tictoctoe/genetic.py:32-41 | the eight winning combinations are exactly the three rows, three columns and two diagonals: one of them is held iff three in a row is held |
| `Board.PlacingCompletesLine` | tictoctoe/genetic.py:127-132 | putting a mark on a cell wins for that mark iff some combination has every other cell already holding that mark |
| `Board.EmptyCellsFrom` | tictoctoe/genetic.py:174 | the empty cells from a given index on, strictly increasing, holding exactly the cells at or above that index whose value is 0; `EmptyCells` is its instance from 0 |
| `Board.EmptyCells` | tictoctoe/genetic.py:174 | the empty-cell list is strictly increasing and holds exactly the cells whose value is 0 |
| `Ranking.Max` | tictoctoe/genetic.py:155 | `max` returns an element of the list that no element exceeds |
| `Ranking.IndexOf` | tictoctoe/genetic.py:178 | `list.index` returns the first position holding the value |
| `Ranking.FirstMaxIndex` | tictoctoe/genetic.py:155 | `xs.index(max(xs))` is a position no element beats, and every earlier element is strictly smaller |
| `Playout.Step` | tictoctoe/genetic.py:91-95 | one pass of the loop body: definition, no contract of its own; `OverIsFinal`, `SkippedStep`, `StepKeepsMarks` and `PlayingInvariant` state its properties |
| `Playout.Run` | tictoctoe/genetic.py:90-95 | the `for move in chromosome` loop as a fold of `Step`: definition, no contract of its own; `PlayGame` is proved equal to it and `RunAppend`, `PrefixOver`, `MarksPersist` and `PlayoutWinsIff` state its properties |
| `Playout.PlayoutResult` | tictoctoe/genetic.py:73-97 | a playout yields 0 or 1, and 1 exactly when the simulation ended with a line completed by `player` |
| `Playout.PlayGame` | tictoctoe/genetic.py:87-97 | the loop over the copied board returns what the `Run` fold specifies |
| `Playout.PrefixOver` | tictoctoe/genetic.py:93-94 | a playout whose prefix has already ended with a completed line ends the same way |
| `Playout.RunAppend` | tictoctoe/genetic.py:90 | consuming two gene sequences one after the other is consuming their concatenation |
| `Playout.OverIsFinal` | tictoctoe/genetic.py:93-94 | after a line is completed, further genes change nothing |
| `Playout.PlayingInvariant` | tictoctoe/genetic.py:88-95 | during a playout the mover is +1 or -1 and is +1 exactly when an even number of cells have been filled; the marks of the input board keep their value; every consumed gene's cell is occupied |
| `Playout.StepKeepsMarks` | tictoctoe/genetic.py:91-92 | one gene never changes a cell that already holds a mark |
| `Playout.MarksPersist` | tictoctoe/genetic.py:90-95 | while the playout is running, every cell marked after k genes keeps that mark later on, whether the mark was on the input board or placed during the playout |
| `Playout.MarkOneMore` | tictoctoe/genetic.py:92 | marking an empty cell adds exactly that cell to the occupied cells |
| `Playout.GameStopsAtFirstLine` | tictoctoe/genetic.py:93-94 | once a gene completes a line for a player, every longer prefix ends with that player as the winner |
| `Playout.PlayoutWinsIff` | tictoctoe/genetic.py:90-97 | the playout returns 1 iff some gene, played while no line is complete yet, lands on an empty cell and completes a line for `player`; otherwise, including when the chromosome runs out, it returns 0 |
| `Playout.OccupiedGeneIsSkipped` | tictoctoe/genetic.py:91 | a gene naming a cell occupied on the input board, or named by an earlier gene, is a no-op: deleting it changes neither the final state nor the result |
| `Playout.SkippedStep` | tictoctoe/genetic.py:91 | consuming a gene whose cell is occupied on the input board, or was named by an earlier gene, leaves the simulation state unchanged |
| `Playout.SumOfPlayouts` | tictoctoe/genetic.py:67-69 | the `sum` of playouts: definition, no contract of its own; `SumOfIdenticalPlayouts` states its value |
| `Playout.SumOfIdenticalPlayouts` | tictoctoe/genetic.py:67-70 | n playouts of the same chromosome sum to n times one playout |
| `Playout.EvaluateFitness` | tictoctoe/genetic.py:57-71 | the fitness equals 10 times one playout for player -1, so it is 0 or 10 |
| `Moves.MoveScore` | tictoctoe/genetic.py:127-134 | the score lies in 0..2 |
| `Moves.MoveScoreByLines` | tictoctoe/genetic.py:127-134 | the score is 2 iff the move completes a line for the mover; it is 1 iff it does not but completes one for the opponent |
| `Moves.EvaluateMove` | tictoctoe/genetic.py:115-134 | on a fresh copy: it returns 2 iff the mover's mark there wins, else 1 iff the opponent's mark there wins, else 0 |
| `Moves.ScoresOf` | tictoctoe/genetic.py:175-177 | there is one score per candidate move |
| `Moves.ScoreAt` | tictoctoe/genetic.py:175-177 | the k-th score is the score of the k-th candidate move |
| `Moves.BestMove` | tictoctoe/genetic.py:174-178 | the extracted move is an empty cell; `BestMoveIsFirstMaximum` states that it is the lowest empty cell of maximal score |
| `Moves.BestMoveIsFirstMaximum` | tictoctoe/genetic.py:174-178 | the extracted move is an empty cell; no empty cell scores higher; every lower empty cell scores strictly lower |
| `Moves.FirstMaxOverAscending` | tictoctoe/genetic.py:178 | over cells listed in increasing order, the first maximum lies at the lowest cell among the best-scoring ones |
| `Moves.FirstWinningCellIsChosen` | tictoctoe/genetic.py:174-180 | the first empty cell that wins outright is the move |
| `Moves.WinningMoveIsPreferred` | tictoctoe/genetic.py:174-180 | if any empty cell wins outright for -1, the chosen move does too, so a winning cell outranks a blocking one |
| `Moves.SingleEmptyCellIsChosen` | tictoctoe/genetic.py:174-180 | with one empty cell, that cell is returned |
| `Moves.WinInsteadOfBlock` | tictoctoe/genetic.py:127-134 | on `1 1 . / -1 -1 . / . . .` the move for -1 is cell 5, which wins, not cell 2, which only blocks |
| `Moves.CellFiveWins` | tictoctoe/genetic.py:128-130 | with -1 on cells 3 and 4, cell 5 scores 2 for -1 |
| `Moves.CellTwoOnlyBlocks` | tictoctoe/genetic.py:131-133 | on that board, cell 2 scores 1 for -1: it completes the opponent's top row but none of -1's lines |
| `Search.InitializePopulation` | tictoctoe/genetic.py:53-55 | exactly `population` chromosomes, each of nine genes, gene j of chromosome k being draw 9k + j |
| `Search.Fitnesses` | tictoctoe/genetic.py:151-154 | one fitness per chromosome, in population order |
| `Search.Crossover` | tictoctoe/genetic.py:161-162 | the child has nine genes: those before the point from parent 1, the rest from parent 2 |
| `Search.Offspring` | tictoctoe/genetic.py:159-170 | every child has nine genes |
| `Search.OffspringGenes` | tictoctoe/genetic.py:162-168 | each gene of a child comes from parent 1 before the point, from parent 2 from the point on, or is the mutated gene, which names a cell empty on the current board; without mutation the child is the plain crossover |
| `Search.Children` | tictoctoe/genetic.py:158-170 | one nine-gene child per draw |
| `Search.ChildAt` | tictoctoe/genetic.py:158-170 | child k is bred from draw k |
| `Search.NextPopulation` | tictoctoe/genetic.py:151-172 | a generation keeps the population size and the nine-gene shape |
| `Search.NextPopulationShape` | tictoctoe/genetic.py:155-172 | slot 0 of the next population is the previous population's first chromosome of maximal fitness, unchanged; slot k > 0 is the child of draw k - 1 |
| `Search.Evolution` | tictoctoe/genetic.py:150-172 | any number of generations keeps the population size and the nine-gene shape |
| `Search.ElitismIsMonotone` | tictoctoe/genetic.py:155-156 | the best fitness of the next population is at least the best fitness of the current one |
| `Search.EvolutionIsMonotone` | tictoctoe/genetic.py:150-172 | after any number of generations the best fitness is at least the initial best |
| `Search.NextGeneration` | tictoctoe/genetic.py:151-172 | the loop that appends the elite and the children builds exactly `NextPopulation` |
| `Search.Evolve` | tictoctoe/genetic.py:148-172 | the generation loop yields `Evolution` of the initial population, of the configured size |
| `Search.ScoreMoves` | tictoctoe/genetic.py:175-177 | the loop calling `EvaluateMove` on each candidate yields exactly `ScoresOf` of the candidates |
| `Search.ChooseMove` | tictoctoe/genetic.py:174-180 | the move is an empty cell of maximal score for -1 and the lowest such cell |
| `Search.GeneticAlgorithm` | tictoctoe/genetic.py:136-180 | on a board with an empty cell, the result is the lowest empty cell of maximal score for -1; it is a function of the board alone, whatever the draws |
| `Search.SearchIgnoresDraws` | tictoctoe/genetic.py:174-180 | two searches on the same board with different random draws return the same move |

## Left out

- Python's `random` module is not modelled. Every draw is an input:
  - the initial genes of `initialize_population`;
  - the `Breeding` records: `random.choice` of the parents, `randint` of the crossover
    point and of the gene to mutate, and `random.choice` among the empty cells.
- `mutation_rate` is not part of `Config`. The float comparison
  `random.uniform(0, 1) < self.mutation_rate` is the input flag `Breeding.mutate`.
- The draws are required to lie in the ranges the random calls yield
  (`ValidBreeding`, and the `Cell` type for genes). The crossover range `[1, 8]` is
  `randint(1, len(parent1) - 1)` for the nine-gene parents the search builds.
- `PlayGame`, `PlayoutResult`: genes are `Cell`s (0..8). Python would also accept a negative
  index (counting from the end) or raise on an index of 9 or more, but the search only
  passes genes in 0..8.
- `Search.GeneticAlgorithm`: three inputs make the source raise, and preconditions
  exclude all three:
  - a mutation drawn on a full board: `random.choice` of the empty list of empty cells
    (tictoctoe/genetic.py:164-168) raises `IndexError`. `ValidBreeding` allows a
    mutation only when the board has an empty cell.
  - a full board, even with no mutation: `max()` of the empty list of move scores
    (tictoctoe/genetic.py:178) raises `ValueError`. `HasEmptyCell` is required.
  - a population of 0 with at least one generation: `max()` of the empty list of
    fitnesses (tictoctoe/genetic.py:155) raises `ValueError`.
- Population size and generation count are `nat`. A negative size in Python behaves like
  0 (empty ranges).
- `Playout.EvaluateFitness` is a function over the `PlayoutResult` specification. It does not
  call the `PlayGame` method, because Dafny functions cannot call methods; `PlayGame` is
  proved equal to `PlayoutResult`.
- The constructor `__init__` is the datatype `Config` with the default
  `DefaultConfig` (50, 50). The winning combinations are the constant
  `Board.WinningCombinations`.
- `tictoctoe/cli.py`, `tictoctoe/gui.py`, `tictoctoe/__main__.py`, `tictoctoe/_consts.py`
  and `main.py` are not part of this model. They hold the console and graphical turn
  loops, argument parsing and display strings.
