/** The genetic search: a random population of chromosomes evolved for a number of generations
    with elitism, single-point crossover and mutation, followed by the move extraction.
    All random draws are inputs. */
module Search {
  import opened Board
  import opened Ranking
  import opened Playout
  import opened Moves

  /** The engine's configuration: the population size and the number of generations
      (50 and 50 by default). */
  datatype Config = Config(population: nat, generations: nat)

  const DefaultConfig: Config := Config(50, 50)

  /** The random draws that produce one child, in the order they are made: the positions of
      the two parents in the current population, the crossover point, whether the child
      mutates, and when it does, the gene to overwrite and a position in the list of the
      board's empty cells. */
  datatype Breeding = Breeding(
    parent1: nat, parent2: nat, crossoverPoint: nat,
    mutate: bool, geneToMutate: Cell, emptyPick: nat)

  /** Chromosomes built by the search have nine genes. */
  predicate IsChromosome(c: seq<Cell>)
  {
    |c| == 9
  }

  predicate WellFormed(population: seq<seq<Cell>>)
  {
    forall k :: 0 <= k < |population| ==> IsChromosome(population[k])
  }

  /** The draws lie in the ranges the random source yields for them: parents are elements of
      the population, the crossover point is randint(1, 8), and a mutation picks one of the
      board's empty cells. */
  predicate ValidBreeding(d: Breeding, populationSize: nat, b: Board)
  {
    && d.parent1 < populationSize
    && d.parent2 < populationSize
    && 1 <= d.crossoverPoint <= 8
    && (d.mutate ==> d.emptyPick < |EmptyCells(b)|)
  }

  predicate ValidDraws(draws: seq<Breeding>, populationSize: nat, b: Board)
  {
    forall k :: 0 <= k < |draws| ==> ValidBreeding(draws[k], populationSize, b)
  }

  /** The draws of one generation: one per child, and there are population - 1 children. */
  predicate ValidGeneration(draws: seq<Breeding>, populationSize: nat, b: Board)
  {
    |draws| == populationSize - 1 && ValidDraws(draws, populationSize, b)
  }

  /** initialize_population: `size` chromosomes of nine genes each, read off the drawn genes. */
  function InitializePopulation(size: nat, genes: seq<Cell>): (population: seq<seq<Cell>>)
    requires |genes| == 9 * size
    ensures |population| == size
    ensures WellFormed(population)
    ensures forall k, j :: 0 <= k < size && 0 <= j < 9 ==> population[k][j] == genes[9 * k + j]
  {
    seq(size, k requires 0 <= k < size => genes[9 * k .. 9 * k + 9])
  }

  /** The fitness of every chromosome, in population order. */
  function Fitnesses(population: seq<seq<Cell>>, b: Board): (scores: seq<int>)
    ensures |scores| == |population|
    ensures forall k :: 0 <= k < |population| ==> scores[k] == EvaluateFitness(population[k], b)
  {
    seq(|population|, k requires 0 <= k < |population| => EvaluateFitness(population[k], b))
  }

  /** Single-point crossover: the genes before the point come from the first parent,
      the rest from the second. */
  function Crossover(parent1: seq<Cell>, parent2: seq<Cell>, point: nat): (child: seq<Cell>)
    requires IsChromosome(parent1) && IsChromosome(parent2) && 1 <= point <= 8
    ensures IsChromosome(child)
    ensures forall j :: 0 <= j < point ==> child[j] == parent1[j]
    ensures forall j :: point <= j < 9 ==> child[j] == parent2[j]
  {
    parent1[..point] + parent2[point..]
  }

  /** One child of the population: crossover of the two drawn parents, then possibly one
      gene overwritten with an empty cell of the current board. */
  function Offspring(population: seq<seq<Cell>>, b: Board, d: Breeding): (child: seq<Cell>)
    requires WellFormed(population) && ValidBreeding(d, |population|, b)
    ensures IsChromosome(child)
  {
    var child := Crossover(population[d.parent1], population[d.parent2], d.crossoverPoint);
    if d.mutate then child[d.geneToMutate := EmptyCells(b)[d.emptyPick]] else child
  }

  /** Every gene of a child comes from the first parent before the crossover point, from the
      second parent from the point on, or is the mutated gene, which then names a cell that is
      empty on the current board; without mutation the child is the plain crossover. */
  lemma OffspringGenes(population: seq<seq<Cell>>, b: Board, d: Breeding)
    requires WellFormed(population) && ValidBreeding(d, |population|, b)
    ensures forall j :: 0 <= j < 9 ==>
      || (j < d.crossoverPoint && Offspring(population, b, d)[j] == population[d.parent1][j])
      || (j >= d.crossoverPoint && Offspring(population, b, d)[j] == population[d.parent2][j])
      || (d.mutate && j == d.geneToMutate && b[Offspring(population, b, d)[j]] == 0)
    ensures !d.mutate ==>
      Offspring(population, b, d) == Crossover(population[d.parent1], population[d.parent2], d.crossoverPoint)
  {
    if d.mutate {
      var empties := EmptyCells(b);
      assert empties[d.emptyPick] in empties;
    }
  }

  /** The children bred from the draws, one per draw, in draw order. */
  function Children(population: seq<seq<Cell>>, b: Board, draws: seq<Breeding>): (children: seq<seq<Cell>>)
    requires WellFormed(population) && ValidDraws(draws, |population|, b)
    ensures |children| == |draws| && WellFormed(children)
    decreases |draws|
  {
    if draws == [] then []
    else
      var init := draws[..|draws| - 1];
      assert forall k :: 0 <= k < |init| ==> init[k] == draws[k];
      Children(population, b, init) + [Offspring(population, b, draws[|draws| - 1])]
  }

  lemma {:induction false} ChildAt(population: seq<seq<Cell>>, b: Board, draws: seq<Breeding>, k: nat)
    requires WellFormed(population) && ValidDraws(draws, |population|, b)
    requires k < |draws|
    ensures Children(population, b, draws)[k] == Offspring(population, b, draws[k])
    decreases |draws|
  {
    var init := draws[..|draws| - 1];
    assert forall i :: 0 <= i < |init| ==> init[i] == draws[i];
    if k < |init| {
      ChildAt(population, b, init, k);
    }
  }

  /** No chromosome is fitter than the one at position i, and every one before it is less fit. */
  predicate FirstFittest(population: seq<seq<Cell>>, b: Board, i: nat)
    requires i < |population|
  {
    && (forall k :: 0 <= k < |population| ==>
          EvaluateFitness(population[k], b) <= EvaluateFitness(population[i], b))
    && (forall j :: 0 <= j < i ==> EvaluateFitness(population[j], b) < EvaluateFitness(population[i], b))
  }

  /** One generation: the first chromosome of maximal fitness, unchanged, followed by
      population - 1 children bred from the current population. */
  function NextPopulation(population: seq<seq<Cell>>, b: Board, draws: seq<Breeding>): (next: seq<seq<Cell>>)
    requires |population| > 0 && WellFormed(population)
    requires ValidGeneration(draws, |population|, b)
    ensures |next| == |population| && WellFormed(next)
  {
    var elite := FirstMaxIndex(Fitnesses(population, b));
    [population[elite]] + Children(population, b, draws)
  }

  /** A generation keeps the population size; its slot 0 is the previous population's first
      chromosome of maximal fitness, unchanged; slot k > 0 is the child bred from draw k - 1. */
  lemma NextPopulationShape(population: seq<seq<Cell>>, b: Board, draws: seq<Breeding>)
    requires |population| > 0 && WellFormed(population)
    requires ValidGeneration(draws, |population|, b)
    ensures |NextPopulation(population, b, draws)| == |population|
    ensures exists i ::
      0 <= i < |population| && FirstFittest(population, b, i) && NextPopulation(population, b, draws)[0] == population[i]
    ensures forall k :: 1 <= k < |population| ==>
      NextPopulation(population, b, draws)[k] == Offspring(population, b, draws[k - 1])
  {
    var elite := FirstMaxIndex(Fitnesses(population, b));
    assert FirstFittest(population, b, elite);
    forall k | 1 <= k < |population|
      ensures NextPopulation(population, b, draws)[k] == Offspring(population, b, draws[k - 1])
    {
      ChildAt(population, b, draws, k - 1);
    }
  }

  /** The population after the given generations, in order, starting from `population`. */
  function Evolution(population: seq<seq<Cell>>, b: Board, generations: seq<seq<Breeding>>): (last: seq<seq<Cell>>)
    requires WellFormed(population)
    requires forall g :: 0 <= g < |generations| ==> ValidGeneration(generations[g], |population|, b)
    ensures |last| == |population| && WellFormed(last)
    decreases |generations|
  {
    if generations == [] then population
    else
      var init := generations[..|generations| - 1];
      assert forall g :: 0 <= g < |init| ==> init[g] == generations[g];
      var before := Evolution(population, b, init);
      assert ValidGeneration(generations[|generations| - 1], |population|, b);
      NextPopulation(before, b, generations[|generations| - 1])
  }

  /** Elitism: the best fitness in the population never drops from one generation to the next. */
  lemma ElitismIsMonotone(population: seq<seq<Cell>>, b: Board, draws: seq<Breeding>)
    requires |population| > 0 && WellFormed(population)
    requires ValidGeneration(draws, |population|, b)
    ensures Max(Fitnesses(NextPopulation(population, b, draws), b)) >= Max(Fitnesses(population, b))
  {
    var next := NextPopulation(population, b, draws);
    NextPopulationShape(population, b, draws);
    var i :| 0 <= i < |population| && FirstFittest(population, b, i) && next[0] == population[i];
    var j :| 0 <= j < |population| && Max(Fitnesses(population, b)) == Fitnesses(population, b)[j];
    assert Fitnesses(next, b)[0] == EvaluateFitness(next[0], b);
  }

  /** Over any number of generations the best fitness never drops below the initial best. */
  lemma {:induction false} EvolutionIsMonotone(population: seq<seq<Cell>>, b: Board, generations: seq<seq<Breeding>>)
    requires |population| > 0 && WellFormed(population)
    requires forall g :: 0 <= g < |generations| ==> ValidGeneration(generations[g], |population|, b)
    ensures Max(Fitnesses(Evolution(population, b, generations), b)) >= Max(Fitnesses(population, b))
    decreases |generations|
  {
    if generations != [] {
      var init := generations[..|generations| - 1];
      assert forall g :: 0 <= g < |init| ==> init[g] == generations[g];
      EvolutionIsMonotone(population, b, init);
      ElitismIsMonotone(Evolution(population, b, init), b, generations[|generations| - 1]);
    }
  }

  /** One pass of the generation loop: fitness of every chromosome, the elite copied to the
      new population, then population - 1 children appended. */
  method NextGeneration(population: seq<seq<Cell>>, currentBoard: Board, draws: seq<Breeding>)
    returns (newPopulation: seq<seq<Cell>>)
    requires |population| > 0 && WellFormed(population)
    requires ValidGeneration(draws, |population|, currentBoard)
    ensures newPopulation == NextPopulation(population, currentBoard, draws)
  {
    var fitnessScores := Fitnesses(population, currentBoard);
    var bestChromosome := population[FirstMaxIndex(fitnessScores)];
    newPopulation := [bestChromosome];
    for k := 0 to |population| - 1
      invariant newPopulation == [bestChromosome] + Children(population, currentBoard, draws[..k])
    {
      var d := draws[k];
      var parent1 := population[d.parent1];
      var parent2 := population[d.parent2];
      var crossoverPoint := d.crossoverPoint;
      var child := parent1[..crossoverPoint] + parent2[crossoverPoint..];
      if d.mutate {
        var geneToMutate := d.geneToMutate;
        child := child[geneToMutate := EmptyCells(currentBoard)[d.emptyPick]];
      }
      assert child == Offspring(population, currentBoard, d);
      assert draws[..k + 1][..k] == draws[..k];
      newPopulation := newPopulation + [child];
    }
    assert draws[..|population| - 1] == draws;
  }

  /** The generation loop of genetic_algorithm: an initial population, then one
      NextGeneration per configured generation. */
  method Evolve(config: Config, currentBoard: Board, initialGenes: seq<Cell>, breeding: seq<seq<Breeding>>)
    returns (population: seq<seq<Cell>>)
    requires |initialGenes| == 9 * config.population
    requires |breeding| == config.generations
    requires forall g :: 0 <= g < |breeding| ==> ValidGeneration(breeding[g], config.population, currentBoard)
    ensures population == Evolution(InitializePopulation(config.population, initialGenes), currentBoard, breeding)
    ensures |population| == config.population && WellFormed(population)
  {
    population := InitializePopulation(config.population, initialGenes);
    ghost var initial := population;
    for generation := 0 to config.generations
      invariant population == Evolution(initial, currentBoard, breeding[..generation])
    {
      assert breeding[..generation + 1][..generation] == breeding[..generation];
      population := NextGeneration(population, currentBoard, breeding[generation]);
    }
    assert breeding[..config.generations] == breeding;
  }

  /** The comprehension that scores each candidate move with evaluate_move. */
  method ScoreMoves(moves: seq<Cell>, currentBoard: Board, player: int) returns (scores: seq<int>)
    ensures scores == ScoresOf(moves, currentBoard, player)
  {
    scores := [];
    for i := 0 to |moves|
      invariant scores == ScoresOf(moves[..i], currentBoard, player)
    {
      var score := EvaluateMove(moves[i], currentBoard, player);
      assert moves[..i + 1][..i] == moves[..i];
      scores := scores + [score];
    }
    assert moves[..|moves|] == moves;
  }

  /** The move extraction of genetic_algorithm: score every empty cell for player -1 and take
      the first empty cell with the maximal score. */
  method ChooseMove(currentBoard: Board) returns (bestMove: Cell)
    requires HasEmptyCell(currentBoard)
    ensures currentBoard[bestMove] == 0
    ensures forall c: Cell :: currentBoard[c] == 0 ==>
      MoveScore(c, currentBoard, -1) <= MoveScore(bestMove, currentBoard, -1)
    ensures forall c: Cell :: c < bestMove && currentBoard[c] == 0 ==>
      MoveScore(c, currentBoard, -1) < MoveScore(bestMove, currentBoard, -1)
    ensures bestMove == BestMove(currentBoard)
  {
    var neutralMoves := EmptyCells(currentBoard);
    var moveScores := ScoreMoves(neutralMoves, currentBoard, -1);
    ghost var c: Cell :| currentBoard[c] == 0;
    assert c in neutralMoves;
    bestMove := neutralMoves[FirstMaxIndex(moveScores)];
    assert bestMove == BestMove(currentBoard);
    BestMoveIsFirstMaximum(currentBoard);
  }

  /** genetic_algorithm: evolves a population for the configured number of generations, then
      returns the first empty cell of maximal one-step score for player -1. The move so
      returned depends on the board alone, whatever the random draws. */
  method GeneticAlgorithm(config: Config, currentBoard: Board, initialGenes: seq<Cell>, breeding: seq<seq<Breeding>>)
    returns (bestMove: Cell, ghost finalPopulation: seq<seq<Cell>>)
    requires HasEmptyCell(currentBoard)
    requires |initialGenes| == 9 * config.population
    requires config.generations > 0 ==> config.population > 0
    requires |breeding| == config.generations
    requires forall g :: 0 <= g < |breeding| ==> ValidGeneration(breeding[g], config.population, currentBoard)
    ensures currentBoard[bestMove] == 0
    ensures forall c: Cell :: currentBoard[c] == 0 ==>
      MoveScore(c, currentBoard, -1) <= MoveScore(bestMove, currentBoard, -1)
    ensures forall c: Cell :: c < bestMove && currentBoard[c] == 0 ==>
      MoveScore(c, currentBoard, -1) < MoveScore(bestMove, currentBoard, -1)
    ensures bestMove == BestMove(currentBoard)
    ensures finalPopulation == Evolution(InitializePopulation(config.population, initialGenes), currentBoard, breeding)
    ensures |finalPopulation| == config.population && WellFormed(finalPopulation)
  {
    finalPopulation := Evolve(config, currentBoard, initialGenes, breeding);
    bestMove := ChooseMove(currentBoard);
  }

  /** Two searches on the same board return the same move, whatever draws each consumed. */
  method SearchIgnoresDraws(
    config: Config, currentBoard: Board,
    genes1: seq<Cell>, breeding1: seq<seq<Breeding>>,
    genes2: seq<Cell>, breeding2: seq<seq<Breeding>>)
    returns (move1: Cell, move2: Cell)
    requires HasEmptyCell(currentBoard)
    requires config.generations > 0 ==> config.population > 0
    requires |genes1| == 9 * config.population && |genes2| == 9 * config.population
    requires |breeding1| == config.generations && |breeding2| == config.generations
    requires forall g :: 0 <= g < |breeding1| ==> ValidGeneration(breeding1[g], config.population, currentBoard)
    requires forall g :: 0 <= g < |breeding2| ==> ValidGeneration(breeding2[g], config.population, currentBoard)
    ensures move1 == move2
  {
    ghost var population1, population2;
    move1, population1 := GeneticAlgorithm(config, currentBoard, genes1, breeding1);
    move2, population2 := GeneticAlgorithm(config, currentBoard, genes2, breeding2);
  }
}
